/**
 * The FAQ section's accordion: the ids of the open items are kept in a list;
 * clicking an item toggles its id, and an item shows its answer exactly when
 * its id is in the list.
 */
module Faq {

  /** `prev.filter(item => item !== id)`. */
  function Remove(open: seq<string>, id: string): (r: seq<string>)
    ensures id !in r
    ensures forall x :: x != id ==> (x in r <==> x in open)
    decreases |open|
  {
    if open == [] then []
    else if open[0] == id then Remove(open[1..], id)
    else [open[0]] + Remove(open[1..], id)
  }

  /** `toggleItem(id)`: remove every occurrence of an open id, append a closed one. */
  function Toggle(open: seq<string>, id: string): seq<string>
  {
    if id in open then Remove(open, id) else open + [id]
  }

  /** `openItems.includes(faq.id)`: the item is rendered with its answer. */
  predicate IsOpen(open: seq<string>, id: string)
  {
    id in open
  }

  predicate NoDuplicates(open: seq<string>)
  {
    forall i, j :: 0 <= i < j < |open| ==> open[i] != open[j]
  }

  /** A toggle flips the clicked item and leaves every other item as it was. */
  lemma {:induction false} ToggleFlipsOnlyThatItem(open: seq<string>, id: string, other: string)
    requires other != id
    ensures IsOpen(Toggle(open, id), id) <==> !IsOpen(open, id)
    ensures IsOpen(Toggle(open, id), other) <==> IsOpen(open, other)
  {
  }

  /** Removing keeps the other ids in their order: a filter of a
      concatenation is the concatenation of the filters. */
  lemma {:induction false} RemoveInOrder(a: seq<string>, b: seq<string>, id: string)
    ensures Remove(a + b, id) == Remove(a, id) + Remove(b, id)
    decreases |a|
  {
    if a == [] {
      assert a + b == b;
    } else {
      assert (a + b)[0] == a[0];
      assert (a + b)[1..] == a[1..] + b;
      RemoveInOrder(a[1..], b, id);
    }
  }

  /** Removing an id that is not there changes nothing. */
  lemma {:induction false} RemoveAbsent(open: seq<string>, id: string)
    requires id !in open
    ensures Remove(open, id) == open
    decreases |open|
  {
    if open != [] {
      assert id !in open[1..] by {
        forall i | 0 <= i < |open| - 1 ensures open[1..][i] != id { assert open[1..][i] == open[i + 1]; }
      }
      RemoveAbsent(open[1..], id);
      assert open == [open[0]] + open[1..];
    }
  }

  /** Every id that survives a removal occurs as often as before, so a
      duplicate-free list stays duplicate-free. */
  lemma {:induction false} RemoveKeepsCounts(open: seq<string>, id: string, x: string)
    requires x != id
    ensures multiset(Remove(open, id))[x] == multiset(open)[x]
    decreases |open|
  {
    if open != [] {
      RemoveKeepsCounts(open[1..], id, x);
      assert open == [open[0]] + open[1..];
      assert multiset(open) == multiset{open[0]} + multiset(open[1..]);
      if open[0] != id {
        assert Remove(open, id) == [open[0]] + Remove(open[1..], id);
      }
    }
  }

  lemma {:induction false} NoDuplicatesCounts(s: seq<string>)
    ensures NoDuplicates(s) <==> forall x :: multiset(s)[x] <= 1
    decreases |s|
  {
    if s != [] {
      var t := s[1..];
      NoDuplicatesCounts(t);
      assert s == [s[0]] + t;
      assert multiset(s) == multiset{s[0]} + multiset(t);
      if NoDuplicates(s) {
        assert NoDuplicates(t) by {
          forall i, j | 0 <= i < j < |t| ensures t[i] != t[j] { assert t[i] == s[i + 1] && t[j] == s[j + 1]; }
        }
        assert s[0] !in t by {
          forall j | 0 <= j < |t| ensures t[j] != s[0] { assert t[j] == s[j + 1]; }
        }
        forall x ensures multiset(s)[x] <= 1
        {
          if x == s[0] {
            assert multiset(t)[x] == 0;
          }
        }
      } else {
        var i, j :| 0 <= i < j < |s| && s[i] == s[j];
        if i == 0 {
          assert s[0] in t by { assert t[j - 1] == s[j]; }
          assert multiset(t)[s[0]] >= 1;
          assert multiset(s)[s[0]] >= 2;
        } else {
          assert !NoDuplicates(t) by { assert t[i - 1] == s[i] && t[j - 1] == s[j]; }
          var x :| multiset(t)[x] > 1;
          assert multiset(s)[x] > 1;
        }
      }
    }
  }

  /** A list without duplicates keeps that property under any toggle. */
  lemma {:induction false} ToggleKeepsNoDuplicates(open: seq<string>, id: string)
    requires NoDuplicates(open)
    ensures NoDuplicates(Toggle(open, id))
  {
    var r := Toggle(open, id);
    NoDuplicatesCounts(open);
    forall x ensures multiset(r)[x] <= 1
    {
      if id in open {
        if x != id {
          RemoveKeepsCounts(open, id, x);
        }
      } else {
        assert multiset(r) == multiset(open) + multiset{id};
      }
    }
    NoDuplicatesCounts(r);
  }

  /** Opening a closed item and closing it again gives back the same list. */
  lemma {:induction false} ToggleTwiceRestores(open: seq<string>, id: string)
    requires id !in open
    ensures Toggle(Toggle(open, id), id) == open
  {
    var once := open + [id];
    assert id in once by { assert once[|open|] == id; }
    RemoveInOrder(open, [id], id);
    RemoveAbsent(open, id);
    assert Remove([id], id) == [];
  }
}
