/** Counting arguments: maps that repeat no value, and lists of names that match one to one. */
module Injections {

  // ------------------------------------------------------------ Names

  ghost predicate Distinct(names: seq<string>) {
    forall i, j :: 0 <= i < j < |names| ==> names[i] != names[j]
  }

  ghost function NameSet(names: seq<string>): set<string> {
    set x | x in names
  }

  /** A list has at most as many names as places, and as many exactly if it repeats none. */
  lemma {:induction false} NamesCount(names: seq<string>)
    ensures |NameSet(names)| <= |names|
    ensures |NameSet(names)| == |names| <==> Distinct(names)
  {
    if names != [] {
      var init, last := names[..|names| - 1], names[|names| - 1];
      NamesCount(init);
      assert names == init + [last];
      assert NameSet(names) == NameSet(init) + {last};
      LastName(names);
    }
  }

  lemma LastName(names: seq<string>)
    requires names != []
    ensures var init := names[..|names| - 1];
            Distinct(names) <==> Distinct(init) && names[|names| - 1] !in NameSet(init)
  {
    var n := |names| - 1;
    var init := names[..n];
    assert forall i :: 0 <= i < n ==> init[i] == names[i];
    if names[n] in init {
      var i :| 0 <= i < n && init[i] == names[n];
      assert names[i] == names[n];
    }
  }

  /** If distinct names all occur in a list that is no longer, the list has no other names and
      repeats none. */
  lemma OneToOne(a: seq<string>, b: seq<string>)
    requires Distinct(a) && |a| == |b| && forall x :: x in a ==> x in b
    ensures Distinct(b) && forall x :: x in b ==> x in a
  {
    NamesCount(a);
    NamesCount(b);
    assert NameSet(a) <= NameSet(b);
    SameSize(NameSet(a), NameSet(b));
    assert forall x :: x in b ==> x in NameSet(b);
  }

  lemma SameSize(a: set<string>, b: set<string>)
    requires a <= b && |b| <= |a|
    ensures a == b
  {
    assert b == a + (b - a);
  }

  // ------------------------------------------------------------ Maps

  ghost predicate Injective(m: map<nat, nat>) {
    forall i, j :: i in m && j in m && i != j ==> m[i] != m[j]
  }

  lemma WithoutOne(m: map<nat, nat>, i: nat)
    requires Injective(m) && i in m
    ensures Injective(m - {i}) && |m| == |m - {i}| + 1 && |m.Values| == |(m - {i}).Values| + 1
  {
    var rest := m - {i};
    assert m.Keys == rest.Keys + {i};
    assert m.Values == rest.Values + {m[i]};
    assert m[i] !in rest.Values;
  }

  ghost predicate KeysBelow(m: map<nat, nat>, n: nat) {
    forall i :: i in m ==> i < n
  }

  lemma NoKeys(m: map<nat, nat>)
    requires KeysBelow(m, 0)
    ensures |m| == |m.Values|
  {
    var keys := m.Keys;
    assert keys == {};
    assert m.Values == {};
  }

  lemma FewerKeys(m: map<nat, nat>, n: nat)
    requires KeysBelow(m, n + 1)
    ensures KeysBelow(m - {n}, n) && (n !in m ==> KeysBelow(m, n))
  {
  }

  lemma {:induction false} InjectiveCount(m: map<nat, nat>, n: nat)
    requires Injective(m) && KeysBelow(m, n)
    ensures |m| == |m.Values|
  {
    hide *;
    if n == 0 {
      NoKeys(m);
    } else {
      FewerKeys(m, n - 1);
      if n - 1 in m {
        WithoutOne(m, n - 1);
        InjectiveCount(m - {n - 1}, n - 1);
      } else {
        InjectiveCount(m, n - 1);
      }
    }
  }
}
