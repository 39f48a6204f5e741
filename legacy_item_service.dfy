/** The item service of the first version (src/.../item/service/ItemService.java),
    which keeps items in the in-memory repository. Users are looked up
    through the user service; here that lookup is the directory `users`. */
module LegacyItems {
  import opened Common
  import opened Domain
  import opened Store
  import opened InMemoryItems

  class ItemService {
    /** `itemRepository`. */
    const repo: InMemoryItemRepository

    ghost predicate Valid()
      reads this, repo
    {
      repo.Valid()
    }

    constructor (repo: InMemoryItemRepository)
      requires repo.Valid()
      ensures this.repo == repo && Valid()
    {
      this.repo := repo;
    }

    /** `create`: the owner must exist; the repository assigns the id. */
    method Create(users: map<int, User>, userId: int, name: string, description: string, available: bool)
      returns (r: Result<Item>)
      requires Valid()
      modifies repo
      ensures Valid()
      ensures r.Err? <==> userId !in users
      ensures r.Err? ==> r.error == NotFound && repo.items == old(repo.items) && repo.id == old(repo.id)
      ensures r.Ok? ==> r.value == Item(repo.id, name, description, available, users[userId], None)
      ensures r.Ok? ==> repo.id == old(repo.id) + 1 && repo.items == old(repo.items)[repo.id := r.value]
    {
      var user := FindUser(users, userId);
      if user.None? {
        return Err(NotFound);
      }
      var item := repo.Create(Item(0, name, description, available, user.value, None));
      r := Ok(item);
    }

    /** `update`: the same decision as the database-era services, on the
        repository's `get`, then written back through the repository's `update`. */
    method Update(users: map<int, User>, itemId: int, userId: int, patch: ItemPatch) returns (r: Result<Item>)
      requires Valid()
      modifies repo
      ensures Valid()
      ensures r == UpdateItemDecision(FindUser(users, userId), old(repo.Get(itemId)), patch)
      ensures r.Ok? ==> repo.items == old(repo.items)[itemId := r.value]
      ensures r.Err? ==> repo.items == old(repo.items)
      ensures repo.id == old(repo.id)
    {
      var user := FindUser(users, userId);
      if user.None? {
        return Err(NotFound);
      }
      var found := repo.Get(itemId);
      if found.None? {
        return Err(NotFound);
      }
      var item := found.value;
      if user.value != item.owner {
        return Err(NotFound);
      }
      if patch.name.Some? {
        item := item.(name := patch.name.value);
      }
      if patch.description.Some? {
        item := item.(description := patch.description.value);
      }
      if patch.available.Some? {
        item := item.(available := patch.available.value);
      }
      item := repo.Update(item);
      r := Ok(item);
    }

    /** `get`: NotFound when the repository has no item under the id. */
    function Get(itemId: int): (r: Result<Item>)
      reads this, repo
      ensures r.Err? <==> itemId !in repo.items
      ensures r.Err? ==> r.error == NotFound
      ensures r.Ok? ==> r.value == repo.items[itemId]
    {
      match repo.Get(itemId)
      case None => Err(NotFound)
      case Some(item) => Ok(item)
    }

    /** `getByUserId`: the repository's answer. */
    method GetByUserId(userId: int) returns (r: seq<Item>)
      requires Valid()
      ensures forall i, j :: 0 <= i < j < |r| ==> r[i].id != r[j].id
      ensures forall x :: x in r <==> exists k :: k in repo.items && repo.items[k] == x && x.owner.id == userId
    {
      r := repo.GetByUserId(userId);
    }

    /** `getBySearchText`: the repository's answer, empty for blank text. */
    method GetBySearchText(text: string) returns (r: seq<Item>)
      requires Valid()
      ensures IsBlank(text) ==> r == []
      ensures forall i, j :: 0 <= i < j < |r| ==> r[i].id != r[j].id
      ensures forall x :: x in r <==>
                !IsBlank(text) && exists k :: k in repo.items && repo.items[k] == x && IsItemSearched(x, text)
    {
      r := repo.GetBySearchText(text);
    }

    /** `delete`: NotFound exactly when the repository's `delete` answers false. */
    method Delete(itemId: int) returns (err: Option<Error>)
      requires Valid()
      modifies repo
      ensures Valid()
      ensures err.Some? <==> itemId !in old(repo.items)
      ensures err.Some? ==> err.value == NotFound
      ensures repo.items == old(repo.items) - {itemId} && repo.id == old(repo.id)
    {
      var deleted := repo.Delete(itemId);
      if !deleted {
        return Some(NotFound);
      }
      err := None;
    }
  }
}
