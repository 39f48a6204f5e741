/** The entities the services work on. Java entities hold references to each
    other (a Booking holds its Item and its booker); here they hold values. */
module Domain {
  import opened Common

  /** A registered user. */
  datatype User = User(id: int, name: string, email: string)

  /** A listed item. `request` is the id of the rental request the item answers, if any. */
  datatype Item = Item(id: int, name: string, description: string, available: bool,
                       owner: User, request: Option<int>)

  /** Booking status. Nothing in the core creates CANCELED, but the type has it. */
  datatype Status = Waiting | Approved | Rejected | Canceled

  /** A reservation of `item` by `booker` for the window from `start` to `end`. */
  datatype Booking = Booking(id: int, start: Time, end: Time, item: Item, booker: User, status: Status)

  /** A comment left by `author` on `item` at time `created`. */
  datatype Comment = Comment(id: int, text: string, item: Item, author: User, created: Time)

  /** The fields of an `ItemDto` that an update may carry; `None` is a null field. */
  datatype ItemPatch = ItemPatch(name: Option<string>, description: Option<string>, available: Option<bool>)

  /** The fields of a `UserDto` that an update may carry; `None` is a null field. */
  datatype UserPatch = UserPatch(name: Option<string>, email: Option<string>)

  /** The item after applying the non-null fields of `p`, as the three item
      services' `update` do with their `if (dto.getX() != null) item.setX(...)`. */
  function PatchItem(item: Item, p: ItemPatch): (r: Item)
    ensures r.id == item.id && r.owner == item.owner && r.request == item.request
    ensures r.name == (if p.name.Some? then p.name.value else item.name)
    ensures r.description == (if p.description.Some? then p.description.value else item.description)
    ensures r.available == (if p.available.Some? then p.available.value else item.available)
  {
    var withName := if p.name.Some? then item.(name := p.name.value) else item;
    var withDescription := if p.description.Some? then withName.(description := p.description.value) else withName;
    if p.available.Some? then withDescription.(available := p.available.value) else withDescription
  }

  /** An empty patch changes nothing, and patching is idempotent. */
  lemma PatchItemLaws(item: Item, p: ItemPatch)
    ensures PatchItem(item, ItemPatch(None, None, None)) == item
    ensures PatchItem(PatchItem(item, p), p) == PatchItem(item, p)
  {
  }

  /** The outcome of `update` on the looked-up user and item, shared by all
      three item services: the user lookup comes first, then the item lookup;
      the caller must equal the owner as a whole `User` value, and a refusal
      is reported as NotFound. */
  function UpdateItemDecision(user: Option<User>, item: Option<Item>, patch: ItemPatch): (r: Result<Item>)
    ensures r.Ok? <==> user.Some? && item.Some? && user.value == item.value.owner
    ensures r.Err? ==> r.error == NotFound
    ensures r.Ok? ==> r.value == PatchItem(item.value, patch)
  {
    if user.None? || item.None? || user.value != item.value.owner then Err(NotFound)
    else Ok(PatchItem(item.value, patch))
  }

  /** A caller whose id is the owner's but whose stored name or email differs
      from the owner's is refused: the check is not an id comparison. */
  lemma ItemOwnerCheckComparesWholeUser(user: User, item: Item, patch: ItemPatch)
    requires user.id == item.owner.id && (user.name != item.owner.name || user.email != item.owner.email)
    ensures UpdateItemDecision(Some(user), Some(item), patch) == Err(NotFound)
  {
  }

  /** An accepted update keeps what identifies the item, and an update with no
      fields returns the stored item unchanged. */
  lemma UpdateItemKeepsIdentity(user: User, item: Item, patch: ItemPatch)
    requires UpdateItemDecision(Some(user), Some(item), patch).Ok?
    ensures var it := UpdateItemDecision(Some(user), Some(item), patch).value;
            it.id == item.id && it.owner == item.owner && it.request == item.request
    ensures UpdateItemDecision(Some(user), Some(item), ItemPatch(None, None, None)) == Ok(item)
  {
    PatchItemLaws(item, patch);
  }
}
