/** The user service, in its three versions (server/.../user/UserServiceImpl.java,
    src/.../user/service/UserServiceImpl.java and src/.../user/service/UserService.java),
    which share the same logic over the users table. */
module UserService {
  import opened Common
  import opened Domain
  import opened Store

  /** `emailExistingCheck` fails: some stored user has this email. */
  predicate EmailTaken(users: map<int, User>, email: string)
  {
    exists k :: k in users && users[k].email == email
  }

  /** No two stored users share an email (the column is declared unique). */
  ghost predicate EmailsUnique(users: map<int, User>)
  {
    forall j, k :: j in users && k in users && j != k ==> users[j].email != users[k].email
  }

  /** The outcome of `update` for user `id`: NotFound when absent; a new
      email (present and different from the current one) must not be taken,
      else DuplicateEmail before anything changes; the name changes only when
      present and not blank. */
  function UpdateDecision(users: map<int, User>, id: int, p: UserPatch): (r: Result<User>)
    ensures id !in users <==> r == Err(NotFound)
    ensures r == Err(DuplicateEmail) <==>
              id in users && p.email.Some? && p.email.value != users[id].email && EmailTaken(users, p.email.value)
    ensures r.Err? ==> r.error == NotFound || r.error == DuplicateEmail
    ensures r.Ok? ==> r.value.id == users[id].id
    ensures r.Ok? ==> r.value.email == (if p.email.Some? then p.email.value else users[id].email)
    ensures r.Ok? ==> r.value.name == (if p.name.Some? && !IsBlank(p.name.value) then p.name.value else users[id].name)
  {
    if id !in users then Err(NotFound)
    else
      var user := users[id];
      if p.email.Some? && p.email.value != user.email && EmailTaken(users, p.email.value) then Err(DuplicateEmail)
      else
        var withEmail := if p.email.Some? && p.email.value != user.email then user.(email := p.email.value) else user;
        Ok(if p.name.Some? && !IsBlank(p.name.value) then withEmail.(name := p.name.value) else withEmail)
  }

  /** `update`: writes the changed user back under its id. */
  method Update(db: Database, id: int, p: UserPatch) returns (r: Result<User>)
    requires db.Valid()
    modifies db
    ensures db.Valid()
    ensures r == UpdateDecision(old(db.users), id, p)
    ensures r.Ok? ==> db.users == old(db.users)[id := r.value]
    ensures r.Err? ==> db.users == old(db.users)
    ensures db.items == old(db.items) && db.bookings == old(db.bookings) && db.comments == old(db.comments)
    ensures db.requests == old(db.requests) && db.itemSeq == old(db.itemSeq)
    ensures db.bookingSeq == old(db.bookingSeq) && db.commentSeq == old(db.commentSeq)
  {
    if id !in db.users {
      return Err(NotFound);
    }
    var user := db.users[id];
    if p.email.Some? && p.email.value != user.email {
      if EmailTaken(db.users, p.email.value) {
        return Err(DuplicateEmail);
      }
      user := user.(email := p.email.value);
    }
    if p.name.Some? && !IsBlank(p.name.value) {
      user := user.(name := p.name.value);
    }
    db.users := db.users[id := user];
    r := Ok(user);
  }

  /** An update never makes two users share an email. */
  lemma UpdateKeepsEmailsUnique(users: map<int, User>, id: int, p: UserPatch)
    requires EmailsUnique(users)
    requires UpdateDecision(users, id, p).Ok?
    ensures EmailsUnique(users[id := UpdateDecision(users, id, p).value])
  {
    var u := UpdateDecision(users, id, p).value;
    var after := users[id := u];
    forall j, k | j in after && k in after && j != k
      ensures after[j].email != after[k].email
    {
      if j == id || k == id {
        var other := if j == id then k else j;
        assert after[other] == users[other];
        if u.email != users[id].email {
          assert !EmailTaken(users, u.email);
          assert users[other].email != u.email;
        }
      }
    }
  }

  /** Passing the user's current email is the same as passing no email: no
      duplicate check runs, so it never fails with DuplicateEmail. */
  lemma CurrentEmailIsNoOp(users: map<int, User>, id: int, p: UserPatch)
    requires id in users && p.email == Some(users[id].email)
    ensures UpdateDecision(users, id, p) == UpdateDecision(users, id, p.(email := None))
    ensures UpdateDecision(users, id, p).Ok?
  {
  }

  /** A name made only of whitespace, such as the unit separator U+001F,
      leaves the stored name as it is. */
  lemma BlankNameIsKept(users: map<int, User>, id: int, p: UserPatch)
    requires id in users && p.email.None? && p.name.Some? && IsBlank(p.name.value)
    ensures UpdateDecision(users, id, p) == Ok(users[id])
  {
  }

  /** `get`: NotFound when absent. */
  function Get(users: map<int, User>, id: int): (r: Result<User>)
    ensures r.Err? <==> id !in users
    ensures r.Err? ==> r.error == NotFound
    ensures r.Ok? ==> r.value == users[id]
  {
    match FindUser(users, id)
    case None => Err(NotFound)
    case Some(u) => Ok(u)
  }

  /** `delete`: NotFound when absent; otherwise exactly that user is removed. */
  method Delete(db: Database, id: int) returns (err: Option<Error>)
    requires db.Valid()
    modifies db
    ensures db.Valid()
    ensures err.Some? <==> id !in old(db.users)
    ensures err.Some? ==> err.value == NotFound && db.users == old(db.users)
    ensures err.None? ==> db.users == old(db.users) - {id}
    ensures db.items == old(db.items) && db.bookings == old(db.bookings) && db.comments == old(db.comments)
    ensures db.requests == old(db.requests) && db.itemSeq == old(db.itemSeq)
    ensures db.bookingSeq == old(db.bookingSeq) && db.commentSeq == old(db.commentSeq)
  {
    if FindUser(db.users, id).None? {
      return Some(NotFound);
    }
    db.users := db.users - {id};
    err := None;
  }
}
