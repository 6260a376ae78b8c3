/** Collecting permission names into a JavaScript `Set` and reading it back
    with `Array.from`: duplicates are dropped and the names come out in the
    order they were first added. */
module Permissions {

  /** `Array.from(set)` after adding the elements of `s` one by one. */
  function Distinct(s: seq<string>): seq<string> {
    if s == [] then []
    else
      var d := Distinct(s[..|s| - 1]);
      if s[|s| - 1] in d then d else d + [s[|s| - 1]]
  }

  predicate NoDuplicates(s: seq<string>) {
    forall i, j :: 0 <= i < j < |s| ==> s[i] != s[j]
  }

  /** Position of the first occurrence of `x` in `s`. */
  function FirstIndex(s: seq<string>, x: string): (k: nat)
    requires x in s
    ensures k < |s| && s[k] == x && x !in s[..k]
  {
    if x in s[..|s| - 1] then FirstIndex(s[..|s| - 1], x) else |s| - 1
  }

  /** Adding one more element: the collected list grows by that element
      exactly when it was not collected before. */
  lemma DistinctSnoc(s: seq<string>, x: string)
    ensures Distinct(s + [x]) == if x in Distinct(s) then Distinct(s) else Distinct(s) + [x]
  {
    assert (s + [x])[..|s|] == s;
  }

  /** Adding `names` one by one to a `Set` that holds the distinct names of
      `seen`, which is how both user stores merge a role's permissions. */
  method AddAll(added: seq<string>, ghost seen: seq<string>, names: seq<string>) returns (r: seq<string>)
    requires added == Distinct(seen)
    ensures r == Distinct(seen + names)
  {
    r := added;
    assert seen + names[..0] == seen;
    for j := 0 to |names|
      invariant r == Distinct(seen + names[..j])
    {
      assert seen + names[..j + 1] == (seen + names[..j]) + [names[j]];
      DistinctSnoc(seen + names[..j], names[j]);
      if names[j] !in r {
        r := r + [names[j]];
      }
    }
    assert names[..|names|] == names;
  }

  /** The collected list has no duplicates, holds exactly the names of `s`,
      and lists them in order of first occurrence in `s`. */
  lemma {:induction false} DistinctSpec(s: seq<string>)
    ensures NoDuplicates(Distinct(s))
    ensures forall x :: x in Distinct(s) <==> x in s
    ensures forall i, j :: 0 <= i < j < |Distinct(s)| ==>
      FirstIndex(s, Distinct(s)[i]) < FirstIndex(s, Distinct(s)[j])
  {
    if s != [] {
      var init := s[..|s| - 1];
      var x := s[|s| - 1];
      assert s == init + [x];
      DistinctSpec(init);
      var d := Distinct(init);
      forall y | y in init ensures FirstIndex(s, y) == FirstIndex(init, y) {
      }
      if x !in d {
        assert FirstIndex(s, x) == |s| - 1;
        forall i | 0 <= i < |d| ensures FirstIndex(s, d[i]) < |s| - 1 {
          assert d[i] in init;
        }
      }
    }
  }
}
