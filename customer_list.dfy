/** The queries of the in-memory list store, as functions over the sequence of
    stored records (each a linear scan in stored order), and the removal that
    `deleteCustomerById` performs. */
module CustomerList {
  import opened Domain

  /** Position of the first record whose id is `id`: `filter(id matches).findFirst()`. */
  function FirstIndexOfId(s: seq<Customer>, id: int): (r: Option<nat>)
    ensures r.Some? ==> r.value < |s| && s[r.value].id == id
    ensures r.Some? ==> forall j :: 0 <= j < r.value ==> s[j].id != id
    ensures r.None? <==> forall j :: 0 <= j < |s| ==> s[j].id != id
  {
    if s == [] then None
    else if s[0].id == id then Some(0)
    else match FirstIndexOfId(s[1..], id)
      case None => assert forall j :: 1 <= j < |s| ==> s[j] == s[1..][j - 1]; None
      case Some(k) => Some(k + 1)
  }

  /** `anyMatch(id matches)`. */
  function AnyWithId(s: seq<Customer>, id: int): (b: bool)
    ensures b <==> exists j :: 0 <= j < |s| && s[j].id == id
  {
    if s == [] then false
    else if s[0].id == id then true
    else
      assert forall j :: 1 <= j < |s| ==> s[j] == s[1..][j - 1];
      AnyWithId(s[1..], id)
  }

  /** `anyMatch(email equals e)`. A null `e` (None) matches no record, because
      `String.equals(null)` is false and stored emails are not null. */
  function AnyWithEmail(s: seq<Customer>, e: Option<string>): (b: bool)
    ensures b <==> e.Some? && exists j :: 0 <= j < |s| && s[j].email == e.value
  {
    if s == [] || e.None? then false
    else if s[0].email == e.value then true
    else
      assert forall j :: 1 <= j < |s| ==> s[j] == s[1..][j - 1];
      AnyWithEmail(s[1..], e)
  }

  /** Position of the first element equal to `x`: where `List.remove(Object)` removes. */
  function IndexOf<T(==)>(s: seq<T>, x: T): (r: Option<nat>)
    ensures r.Some? ==> r.value < |s| && s[r.value] == x
    ensures r.Some? ==> forall j :: 0 <= j < r.value ==> s[j] != x
    ensures r.None? <==> x !in s
  {
    if s == [] then None
    else if s[0] == x then Some(0)
    else match IndexOf(s[1..], x)
      case None => assert forall j :: 1 <= j < |s| ==> s[j] == s[1..][j - 1]; None
      case Some(k) => Some(k + 1)
  }

  /** The lookup by id depends on the ids alone. */
  lemma SameIdsSameFirstIndex(s: seq<Customer>, t: seq<Customer>, id: int)
    requires |s| == |t| && forall j :: 0 <= j < |s| ==> s[j].id == t[j].id
    ensures FirstIndexOfId(s, id) == FirstIndexOfId(t, id)
  {
  }

  /** The records left by `deleteCustomerById(id)`: the first record with that id
      taken out, or all of them when none has it. */
  function DeleteFirstWithId(s: seq<Customer>, id: int): (r: seq<Customer>)
    ensures |r| == if AnyWithId(s, id) then |s| - 1 else |s|
    ensures multiset(r) <= multiset(s)
  {
    match FirstIndexOfId(s, id)
    case None => s
    case Some(k) =>
      assert s == s[..k] + [s[k]] + s[k + 1..];
      s[..k] + s[k + 1..]
  }

  /** The records after `updateCustomer(c)`: `c` in place of the first record with
      its id, or all of them as they were when none has it. */
  function ReplaceFirstWithId(s: seq<Customer>, c: Customer): (r: seq<Customer>)
    ensures |r| == |s|
    ensures forall j :: 0 <= j < |s| ==> r[j] == s[j] || (r[j] == c && s[j].id == c.id)
    ensures FirstIndexOfId(s, c.id).Some? ==>
      var k := FirstIndexOfId(s, c.id).value;
      r[k] == c && forall j :: 0 <= j < |s| && j != k ==> r[j] == s[j]
    ensures FirstIndexOfId(s, c.id).None? ==> r == s
  {
    match FirstIndexOfId(s, c.id)
    case None => s
    case Some(k) => s[k := c]
  }

  /** Persisting the record that a lookup by its id returns changes nothing. */
  lemma ReplaceWithFoundIsNoOp(s: seq<Customer>, id: int, k: nat)
    requires FirstIndexOfId(s, id) == Some(k)
    ensures ReplaceFirstWithId(s, s[k]) == s
  {
  }

  /** An id is present exactly when the lookup by id finds a record. */
  lemma ExistsIdIffFound(s: seq<Customer>, id: int)
    ensures AnyWithId(s, id) <==> FirstIndexOfId(s, id).Some?
  {
  }

  /** `List.remove(found)` compares by field values: the first value-equal element is
      the first record with the id, so the element removed is the one that was found. */
  lemma RemovedIsFound(s: seq<Customer>, id: int, k: nat)
    requires FirstIndexOfId(s, id) == Some(k)
    ensures IndexOf(s, s[k]) == Some(k)
  {
  }

  /** Deleting an id no record has changes nothing. */
  lemma DeleteAbsentIsNoOp(s: seq<Customer>, id: int)
    requires !AnyWithId(s, id)
    ensures DeleteFirstWithId(s, id) == s
  {
  }

  /** Deleting a present id removes exactly one record, the first match, and keeps
      the others in their relative order. */
  lemma DeleteRemovesFirstMatch(s: seq<Customer>, id: int, k: nat)
    requires FirstIndexOfId(s, id) == Some(k)
    ensures var r := DeleteFirstWithId(s, id);
      && |r| == |s| - 1
      && (forall j :: 0 <= j < k ==> r[j] == s[j])
      && (forall j :: k <= j < |r| ==> r[j] == s[j + 1])
      && multiset(s) == multiset(r) + multiset{s[k]}
  {
    var r := DeleteFirstWithId(s, id);
    assert r == s[..k] + s[k + 1..];
    calc {
      multiset(s);
      { assert s == s[..k] + [s[k]] + s[k + 1..]; }
      multiset(s[..k]) + multiset{s[k]} + multiset(s[k + 1..]);
      multiset(r) + multiset{s[k]};
    }
  }

  /** Records with any other id are exactly as present after the delete as before. */
  lemma DeleteKeepsOtherIds(s: seq<Customer>, id: int, other: int)
    requires other != id
    ensures AnyWithId(DeleteFirstWithId(s, id), other) == AnyWithId(s, other)
  {
    var r := DeleteFirstWithId(s, id);
    match FirstIndexOfId(s, id)
    case None =>
    case Some(k) =>
      DeleteRemovesFirstMatch(s, id, k);
      if AnyWithId(s, other) {
        var j :| 0 <= j < |s| && s[j].id == other;
        assert j != k;
        if j < k { assert r[j] == s[j]; } else { assert r[j - 1] == s[j]; }
      }
      if AnyWithId(r, other) {
        var j :| 0 <= j < |r| && r[j].id == other;
        if j < k { assert r[j] == s[j]; } else { assert r[j] == s[j + 1]; }
      }
  }

  /** When at most one record carries the id, it is gone after the delete. */
  lemma DeleteUniqueIdIsGone(s: seq<Customer>, id: int)
    requires forall i, j :: 0 <= i < |s| && 0 <= j < |s| && s[i].id == id && s[j].id == id ==> i == j
    ensures !AnyWithId(DeleteFirstWithId(s, id), id)
  {
  }

  /** No two records share an email: the uniqueness registration is meant to keep. */
  predicate EmailsUnique(s: seq<Customer>)
  {
    forall i, j :: 0 <= i < |s| && 0 <= j < |s| && s[i].email == s[j].email ==> i == j
  }

  /** Appending a record whose email is not stored keeps emails unique. */
  lemma AppendFreshEmailKeepsUnique(s: seq<Customer>, c: Customer)
    requires EmailsUnique(s) && !AnyWithEmail(s, Some(c.email))
    ensures EmailsUnique(s + [c])
  {
  }

  /** Deleting keeps emails unique. */
  lemma DeleteKeepsUniqueEmails(s: seq<Customer>, id: int)
    requires EmailsUnique(s)
    ensures EmailsUnique(DeleteFirstWithId(s, id))
  {
  }

  /** Appending a record leaves every earlier lookup as it was; an id found nowhere
      before is found at the new, last position. */
  lemma {:induction false} FirstIndexAfterAppend(s: seq<Customer>, c: Customer, id: int)
    ensures FirstIndexOfId(s + [c], id) ==
      if FirstIndexOfId(s, id).Some? then FirstIndexOfId(s, id)
      else if c.id == id then Some(|s|)
      else None
  {
    if s == [] {
      assert s + [c] == [c];
    } else {
      assert (s + [c])[1..] == s[1..] + [c];
      FirstIndexAfterAppend(s[1..], c, id);
    }
  }

  /** After appending a record its email is stored, and so is every email stored before. */
  lemma EmailsAfterAppend(s: seq<Customer>, c: Customer, e: Option<string>)
    ensures AnyWithEmail(s + [c], e) <==> AnyWithEmail(s, e) || e == Some(c.email)
  {
    if AnyWithEmail(s + [c], e) && !AnyWithEmail(s, e) {
      var j :| 0 <= j < |s + [c]| && (s + [c])[j].email == e.value;
      assert j == |s|;
    }
    if e == Some(c.email) {
      assert (s + [c])[|s|] == c;
    }
    if AnyWithEmail(s, e) {
      var j :| 0 <= j < |s| && s[j].email == e.value;
      assert (s + [c])[j] == s[j];
    }
  }
}
