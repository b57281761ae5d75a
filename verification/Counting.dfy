/** Adding up a natural quantity along a sequence: logs, per-CPU slots, batches. */
module Counting {

  ghost function Add<T(!new)>(s: seq<T>, f: T -> nat): (n: nat) {
    if s == [] then 0 else Add(s[..|s| - 1], f) + f(s[|s| - 1])
  }

  lemma AddMore<T(!new)>(s: seq<T>, x: T, f: T -> nat)
    ensures Add(s + [x], f) == Add(s, f) + f(x)
  {
    assert (s + [x])[..|s|] == s;
  }

  lemma {:induction false} AddAll<T(!new)>(s: seq<T>, t: seq<T>, f: T -> nat)
    ensures Add(s + t, f) == Add(s, f) + Add(t, f)
  {
    if t == [] {
      assert s + t == s;
    } else {
      var n := |t| - 1;
      AddAll(s, t[..n], f);
      assert (s + t)[..|s + t| - 1] == s + t[..n];
    }
  }

  /** Writing one slot moves the total by the change in that slot. */
  lemma {:induction false} AddPut<T(!new)>(s: seq<T>, i: nat, x: T, f: T -> nat)
    requires i < |s|
    ensures Add(s[i := x], f) + f(s[i]) == Add(s, f) + f(x)
  {
    var n := |s| - 1;
    if i == n {
      assert s[i := x][..n] == s[..n];
    } else {
      AddPut(s[..n], i, x, f);
      assert s[i := x][..n] == s[..n][i := x];
    }
  }

  lemma {:induction false} AddNone<T(!new)>(s: seq<T>, f: T -> nat)
    requires forall x :: x in s ==> f(x) == 0
    ensures Add(s, f) == 0
  {
    if s != [] {
      AddNone(s[..|s| - 1], f);
    }
  }
}
