/** The subscriber registry: the linked list of `SubscriberNode`s (publish.h:6-9,
    publish.h:18), modelled as a sequence whose index 0 is the list head. */
module Registry {
  import opened Wrappers

  /** No identity occurs twice in the list. */
  ghost predicate NoDuplicates<Id>(s: seq<Id>) {
    forall i, j :: 0 <= i < j < |s| ==> s[i] != s[j]
  }

  /** `countSubscribers` (publish.c:266-274): walks the list and counts its nodes. */
  function Count<Id>(s: seq<Id>): (n: nat)
    ensures n == |s|
  {
    if s == [] then 0 else 1 + Count(s[1..])
  }

  /** The list walk shared by `unsubscribe`, `getMsg` and `getAvailable`
      (publish.c:104-124, publish.c:174-182, publish.c:235-243): the position of
      the first node carrying `id`, or `None` when the walk falls off the end. */
  function IndexOf<Id(==)>(s: seq<Id>, id: Id): (r: Option<nat>)
    ensures r.None? <==> id !in s
    ensures r.Some? ==> r.value < |s| && s[r.value] == id
    ensures r.Some? ==> forall j :: 0 <= j < r.value ==> s[j] != id
  {
    if s == [] then None
    else if s[0] == id then Some(0)
    else
      match IndexOf(s[1..], id)
      case None => None
      case Some(j) => Some(j + 1)
  }

  /** Unlinking the node at position `i` (publish.c:110-112). */
  function RemoveAt<Id>(s: seq<Id>, i: nat): (t: seq<Id>)
    requires i < |s|
    ensures |t| == |s| - 1
    ensures forall j :: 0 <= j < i ==> t[j] == s[j]
    ensures forall j :: i <= j < |t| ==> t[j] == s[j + 1]
  {
    s[..i] + s[i + 1..]
  }

  /** In a list without duplicates the position of an identity is the one place
      it occurs. */
  lemma IndexOfUnique<Id>(s: seq<Id>, id: Id, i: nat)
    requires NoDuplicates(s)
    requires i < |s| && s[i] == id
    ensures IndexOf(s, id) == Some(i)
  {
  }

  /** Unlinking a node keeps the list free of duplicates and removes exactly
      the identity stored there. */
  lemma RemoveAtNoDuplicates<Id>(s: seq<Id>, i: nat)
    requires NoDuplicates(s) && i < |s|
    ensures NoDuplicates(RemoveAt(s, i))
    ensures s[i] !in RemoveAt(s, i)
    ensures forall x :: x in s && x != s[i] ==> x in RemoveAt(s, i)
  {
    var t := RemoveAt(s, i);
    forall x | x in s && x != s[i]
      ensures x in t
    {
      var j :| 0 <= j < |s| && s[j] == x;
      if j < i { assert t[j] == x; } else { assert t[j - 1] == x; }
    }
  }
}
