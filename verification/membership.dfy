/** The list-membership toggle written inline twice in the frontend, as
    `prev.includes(x) ? prev.filter(v => v !== x) : [...prev, x]`: once for the GDPR
    modal's expanded categories and once for the accordion's multiple mode. */
module Membership {

  /** `prev.filter(v => v !== x)`: every occurrence of `x` removed, order kept. */
  function Remove(s: seq<string>, x: string): (r: seq<string>)
    ensures x !in r
    ensures forall y :: y != x ==> (y in r <==> y in s)
    ensures |r| <= |s|
  {
    if s == [] then []
    else if s[0] == x then Remove(s[1..], x)
    else [s[0]] + Remove(s[1..], x)
  }

  /** `prev.includes(x) ? prev.filter(v => v !== x) : [...prev, x]`: the membership of
      `x` flips and every other value's membership stays. */
  function Toggle(s: seq<string>, x: string): (r: seq<string>)
    ensures x in r <==> x !in s
    ensures forall y :: y != x ==> (y in r <==> y in s)
  {
    if x in s then Remove(s, x) else s + [x]
  }

  predicate NoDuplicates(s: seq<string>) {
    forall i, j :: 0 <= i < j < |s| ==> s[i] != s[j]
  }

  /** Removing a value that is absent changes nothing. */
  lemma {:induction false} RemoveAbsent(s: seq<string>, x: string)
    requires x !in s
    ensures Remove(s, x) == s
  {
    if s != [] {
      assert x !in s[1..];
      RemoveAbsent(s[1..], x);
    }
  }

  /** Removing keeps a duplicate-free list duplicate-free. */
  lemma {:induction false} RemoveNoDuplicates(s: seq<string>, x: string)
    requires NoDuplicates(s)
    ensures NoDuplicates(Remove(s, x))
  {
    if s != [] {
      RemoveNoDuplicates(s[1..], x);
      if s[0] != x {
        var r := Remove(s[1..], x);
        assert s[0] !in s[1..];
        assert s[0] !in r;
        assert forall j :: 0 < j < |[s[0]] + r| ==> ([s[0]] + r)[j] == r[j - 1];
      }
    }
  }

  /** The toggle never creates a duplicate. */
  lemma ToggleNoDuplicates(s: seq<string>, x: string)
    requires NoDuplicates(s)
    ensures NoDuplicates(Toggle(s, x))
  {
    if x in s {
      RemoveNoDuplicates(s, x);
    }
  }

  /** Toggling twice restores the list exactly when the value was absent. */
  lemma ToggleTwiceFromAbsent(s: seq<string>, x: string)
    requires x !in s
    ensures Toggle(Toggle(s, x), x) == s
  {
    assert x in s + [x];
    RemoveAbsent(s, x);
    RemoveAppend(s, x);
  }

  lemma {:induction false} RemoveAppend(s: seq<string>, x: string)
    ensures Remove(s + [x], x) == Remove(s, x)
  {
    if s == [] {
      assert [x][1..] == [];
    } else {
      assert (s + [x])[1..] == s[1..] + [x];
      RemoveAppend(s[1..], x);
    }
  }

  /** Toggling twice always restores the set of members. */
  lemma ToggleTwiceSameMembers(s: seq<string>, x: string)
    ensures forall y :: y in Toggle(Toggle(s, x), x) <==> y in s
  {
  }

  /** ... but not always the order: a present value moves to the end. */
  lemma ToggleTwiceReorders()
    ensures Toggle(Toggle(["a", "b", "c"], "b"), "b") == ["a", "c", "b"]
  {
    var abc: seq<string> := ["a", "b", "c"];
    assert Remove(abc, "b") == ["a", "c"] by {
      assert abc[1..] == ["b", "c"];
      assert abc[1..][1..] == ["c"];
      assert abc[1..][1..][1..] == [];
    }
    assert "b" !in ["a", "c"];
  }
}
