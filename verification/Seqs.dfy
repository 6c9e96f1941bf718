/** Sequence vocabulary shared by the other modules: the tail of a sequence, as a bounded deque keeps it and
    as a Python slice cuts it. */
module Seqs {
  datatype Option<+T> = None | Some(value: T)

  /** What `deque(maxlen=n)` holds after `s` has been appended to it. */
  function LastN<T>(s: seq<T>, n: nat): seq<T>
  {
    if |s| <= n then s else s[|s| - n..]
  }

  /** The Python slice `s[-n:]`. For n == 0 that is the whole sequence, for n < 0 it drops the first -n elements. */
  function TailSlice<T>(s: seq<T>, n: int): seq<T>
  {
    if n > 0 then LastN(s, n) else if -n <= |s| then s[-n..] else []
  }

  predicate IsSuffix<T(==)>(t: seq<T>, s: seq<T>)
  {
    |t| <= |s| && t == s[|s| - |t|..]
  }

  /** A bounded deque forgets nothing that a longer append would have kept. */
  lemma LastNAppend<T>(s: seq<T>, x: T, n: nat)
    ensures LastN(LastN(s, n) + [x], n) == LastN(s + [x], n)
  {
  }

  lemma LastNConcat<T>(a: seq<T>, b: seq<T>, n: nat)
    requires n <= |b|
    ensures LastN(a + b, n) == LastN(b, n)
  {
    assert (a + b)[|a + b| - n..] == b[|b| - n..];
  }

  lemma LastNOfLastN<T>(s: seq<T>, m: nat, n: nat)
    requires m <= n
    ensures IsSuffix(LastN(s, m), LastN(s, n))
  {
  }

  lemma Associative<T>(a: seq<T>, b: seq<T>, c: seq<T>)
    ensures (a + b) + c == a + (b + c)
  {
  }

  lemma AppendNothing<T>(a: seq<T>)
    ensures a + [] == a
  {
  }

  lemma SliceTail<T>(s: seq<T>, k: nat)
    requires 0 < k <= |s|
    ensures s[..k] != [] && s[..k][0] == s[0] && s[..k][1..] == s[1..][..k - 1] && s[k..] == s[1..][k - 1..]
  {}

  /** `out` is `s` cut down to the positions `at`, in order. */
  ghost predicate Selected<T>(s: seq<T>, at: seq<nat>, out: seq<T>)
  {
    && |out| == |at|
    && (forall j :: 0 <= j < |at| ==> at[j] < |s| && out[j] == s[at[j]])
    && (forall j, k :: 0 <= j < k < |at| ==> at[j] < at[k])
  }

  /** The same positions with one more element in front. */
  function Shifted(at: seq<nat>): (r: seq<nat>)
    ensures |r| == |at| && forall j :: 0 <= j < |at| ==> r[j] == at[j] + 1
  {
    seq(|at|, j requires 0 <= j < |at| => at[j] + 1)
  }

  /** The positions of a selection behind one more element, which is kept or not. */
  function Behind(at: seq<nat>, keep: bool): seq<nat>
  {
    if keep then [0] + Shifted(at) else Shifted(at)
  }

  lemma ShiftedIn(at: seq<nat>, i: nat)
    ensures i + 1 in Shifted(at) <==> i in at
    ensures 0 !in Shifted(at)
  {
    if i in at {
      var j :| 0 <= j < |at| && at[j] == i;
      assert Shifted(at)[j] == i + 1;
    }
  }

  lemma BehindIn(at: seq<nat>, keep: bool, i: nat)
    ensures i in Behind(at, keep) <==> if i == 0 then keep else i - 1 in at
  {
    ShiftedIn(at, if i == 0 then 0 else i - 1);
  }

  lemma SelectedBehind<T>(x: T, s: seq<T>, at: seq<nat>, out: seq<T>, keep: bool)
    requires Selected(s, at, out)
    ensures Selected([x] + s, Behind(at, keep), if keep then [x] + out else out)
  {
  }
}
