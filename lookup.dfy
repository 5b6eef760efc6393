/** Searching and rewriting the user slice by id, as the handlers' `for range` loops do. */
module Lookup {
  import opened Wrappers
  import opened Model

  /** The index of the first user with the given id, as a loop that stops at the first match finds it. */
  function FirstMatch(users: seq<User>, id: int): (r: Option<nat>)
    ensures r.Some? ==> r.value < |users| && users[r.value].id == id
    ensures r.Some? ==> forall k :: 0 <= k < r.value ==> users[k].id != id
    ensures r.None? <==> forall k :: 0 <= k < |users| ==> users[k].id != id
    decreases |users|
  {
    if users == [] then None
    else if users[0].id == id then Some(0)
    else match FirstMatch(users[1..], id)
      case None => None
      case Some(i) => Some(i + 1)
  }

  /** The index of the last user with the given id, as a loop that runs to the end finds it. */
  function LastMatch(users: seq<User>, id: int): (r: Option<nat>)
    ensures r.Some? ==> r.value < |users| && users[r.value].id == id
    ensures r.Some? ==> forall k :: r.value < k < |users| ==> users[k].id != id
    ensures r.None? <==> forall k :: 0 <= k < |users| ==> users[k].id != id
    decreases |users|
  {
    if users == [] then None
    else if users[|users| - 1].id == id then Some(|users| - 1)
    else LastMatch(users[..|users| - 1], id)
  }

  /** No two users share an id. */
  ghost predicate UniqueIds(users: seq<User>) {
    forall i, j :: 0 <= i < j < |users| ==> users[i].id != users[j].id
  }

  /** Every user with the given id replaced by `edited`, the others left in place. */
  function ReplaceMatches(users: seq<User>, id: int, edited: User): (r: seq<User>)
  {
    seq(|users|, i requires 0 <= i < |users| => if users[i].id == id then edited else users[i])
  }

  /** With unique ids, the first match is also the last one. */
  lemma FirstIsLastWhenUnique(users: seq<User>, id: int)
    requires UniqueIds(users)
    ensures FirstMatch(users, id) == LastMatch(users, id)
  {
  }
}
