/**
 * Cutting a sequence into runs of consecutive elements, given for every
 * element whether it opens a new run. The paragraph layouts of the
 * segmenter are stated in these terms.
 */
module Grouping {

  /**
   * `parts` cut into runs of consecutive parts: a run opens at the first
   * part and at every later part `k` with `opens[k]`; any other part joins
   * the run before it.
   */
  function Runs<T>(parts: seq<T>, opens: seq<bool>): (r: seq<seq<T>>)
    requires |parts| == |opens|
    ensures |parts| > 0 ==> |r| > 0
  {
    if |parts| == 0 then []
    else
      var rest := Runs(parts[1..], opens[1..]);
      if |parts| == 1 || opens[1] then [[parts[0]]] + rest
      else [[parts[0]] + rest[0]] + rest[1..]
  }

  /** The runs laid end to end. */
  function Flatten<T>(runs: seq<seq<T>>): seq<T>
  {
    if |runs| == 0 then [] else runs[0] + Flatten(runs[1..])
  }

  /** A buffer of `n` pieces held as one run: only its first piece opens one. */
  function Lead(n: nat): (r: seq<bool>)
    ensures |r| == n
  {
    seq(n, k requires 0 <= k < n => k == 0)
  }

  // ----------------------------------------------------------------------
  // Properties of runs
  // ----------------------------------------------------------------------

  /** Cutting at a part that opens a run splits the runs there. */
  lemma {:induction false} RunsAppend<T>(a: seq<T>, fa: seq<bool>, b: seq<T>, fb: seq<bool>)
    requires |a| == |fa| && |b| == |fb|
    requires |b| == 0 || fb[0]
    ensures Runs(a + b, fa + fb) == Runs(a, fa) + Runs(b, fb)
    decreases |a|, 1
  {
    if |a| == 0 {
      assert a + b == b && fa + fb == fb;
    } else if |a| == 1 || fa[1] {
      RunsAppendOpen(a, fa, b, fb);
    } else {
      RunsAppendMerge(a, fa, b, fb);
    }
  }

  /** RunsAppend when the first part of `a` is a run of its own. */
  lemma {:induction false} RunsAppendOpen<T>(a: seq<T>, fa: seq<bool>, b: seq<T>, fb: seq<bool>)
    requires |a| == |fa| && |b| == |fb| && |a| > 0 && (|a| == 1 || fa[1])
    requires |b| == 0 || fb[0]
    ensures Runs(a + b, fa + fb) == Runs(a, fa) + Runs(b, fb)
    decreases |a|, 0
  {
    AppendTail(a, b);
    AppendTail(fa, fb);
    RunsAppend(a[1..], fa[1..], b, fb);
    RunsOpen(a + b, fa + fb);
    RunsOpen(a, fa);
    ConsAssoc([a[0]], Runs(a[1..], fa[1..]), Runs(b, fb));
  }

  /** RunsAppend when the first part of `a` starts a longer run. */
  lemma {:induction false} RunsAppendMerge<T>(a: seq<T>, fa: seq<bool>, b: seq<T>, fb: seq<bool>)
    requires |a| == |fa| && |b| == |fb| && |a| > 1 && !fa[1]
    requires |b| == 0 || fb[0]
    ensures Runs(a + b, fa + fb) == Runs(a, fa) + Runs(b, fb)
    decreases |a|, 0
  {
    AppendTail(a, b);
    AppendTail(fa, fb);
    RunsAppend(a[1..], fa[1..], b, fb);
    RunsMerge(a + b, fa + fb);
    RunsMerge(a, fa);
    MergeFront([a[0]], Runs(a[1..], fa[1..]), Runs(b, fb));
  }

  /** Appending leaves the head and appends to the tail. */
  lemma AppendTail<T>(a: seq<T>, b: seq<T>)
    requires |a| > 0
    ensures (a + b)[0] == a[0] && (a + b)[1..] == a[1..] + b
    ensures |a| > 1 ==> (a + b)[1] == a[1]
    ensures |a| == 1 ==> |a + b| == 1 || (a + b)[1] == b[0]
  {
  }

  /** Prepending one element commutes with appending more. */
  lemma ConsAssoc<T>(x: T, inner: seq<T>, rb: seq<T>)
    ensures [x] + (inner + rb) == ([x] + inner) + rb
  {
  }

  /** Appending nothing, on either side, changes nothing. */
  lemma AppendEmpty<T>(a: seq<T>)
    ensures a + [] == a && [] + a == a
  {
  }

  /** Appending one element and then more is appending both at once. */
  lemma SnocAssoc<T>(a: seq<T>, x: T, c: seq<T>)
    ensures (a + [x]) + c == a + ([x] + c)
  {
  }

  /** A sequence cut at `i` is its two halves laid end to end. */
  lemma CutAt<T>(s: seq<T>, i: nat)
    requires i <= |s|
    ensures s[..i] + s[i..] == s
    ensures i < |s| ==> s[i..][0] == s[i] && s[i..][1..] == s[i + 1..]
  {
  }

  /** One element between two sequences, grouped either way. */
  lemma MidAssoc<T>(a: seq<T>, x: T, c: seq<T>)
    ensures a + [x] + c == a + ([x] + c)
    ensures ([x] + c)[0] == x && ([x] + c)[1..] == c
  {
  }

  lemma PlusAssoc<T>(a: seq<T>, b: seq<T>, c: seq<T>)
    ensures (a + b) + c == a + (b + c)
  {
  }

  lemma LeadOne()
    ensures Lead(1) == [true]
  {
  }

  /** One more piece in a held buffer joins its run. */
  lemma LeadSnoc(n: nat)
    ensures Lead(n + 1) == Lead(n) + [n == 0]
  {
  }

  /** A piece added to a held buffer, seen as the first of the pieces after it. */
  lemma RunsJoinBuffer<T>(buf: seq<T>, x: T, c: seq<T>, f: seq<bool>)
    requires |c| == |f|
    ensures Runs((buf + [x]) + c, Lead(|buf| + 1) + f) == Runs(buf + ([x] + c), Lead(|buf|) + ([|buf| == 0] + f))
  {
    JoinBufferArgs(buf, x, c, f);
    RunsCongruent((buf + [x]) + c, buf + ([x] + c), Lead(|buf| + 1) + f, Lead(|buf|) + ([|buf| == 0] + f));
  }

  lemma JoinBufferArgs<T>(buf: seq<T>, x: T, c: seq<T>, f: seq<bool>)
    ensures (buf + [x]) + c == buf + ([x] + c)
    ensures Lead(|buf| + 1) + f == Lead(|buf|) + ([|buf| == 0] + f)
  {
    LeadSnoc(|buf|);
  }

  lemma RunsCongruent<T>(p: seq<T>, q: seq<T>, f: seq<bool>, g: seq<bool>)
    requires p == q && f == g && |p| == |f|
    ensures Runs(p, f) == Runs(q, g)
  {
  }

  /** Runs at a part that is the last or whose successor opens a run. */
  lemma RunsOpen<T>(parts: seq<T>, opens: seq<bool>)
    requires |parts| == |opens| && |parts| > 0 && (|parts| == 1 || opens[1])
    ensures Runs(parts, opens) == [[parts[0]]] + Runs(parts[1..], opens[1..])
  {
  }

  /** Runs at a part whose successor joins its run. */
  lemma RunsMerge<T>(parts: seq<T>, opens: seq<bool>)
    requires |parts| == |opens| && |parts| > 1 && !opens[1]
    ensures Runs(parts, opens) ==
              [[parts[0]] + Runs(parts[1..], opens[1..])[0]] + Runs(parts[1..], opens[1..])[1..]
  {
  }

  /** Merging a piece into the first run commutes with appending more runs. */
  lemma MergeFront<T>(x: seq<T>, inner: seq<seq<T>>, rb: seq<seq<T>>)
    requires |inner| > 0
    ensures [x + (inner + rb)[0]] + (inner + rb)[1..] == ([x + inner[0]] + inner[1..]) + rb
  {
    assert (inner + rb)[0] == inner[0];
    assert (inner + rb)[1..] == inner[1..] + rb;
  }

  /** Parts none of which after the first opens a run form a single run. */
  lemma {:induction false} RunsWhole<T>(a: seq<T>, fa: seq<bool>)
    requires |a| == |fa| && |a| > 0
    requires forall k :: 1 <= k < |fa| ==> !fa[k]
    ensures Runs(a, fa) == [a]
  {
    if |a| == 1 {
      assert a == [a[0]];
      assert Runs(a[1..], fa[1..]) == [];
    } else {
      var tail := fa[1..];
      forall k | 1 <= k < |tail| ensures !tail[k] {
        assert tail[k] == fa[k + 1];
      }
      RunsWhole(a[1..], tail);
      assert !fa[1];
      assert [a[0]] + a[1..] == a;
    }
  }

  /**
   * The runs partition the parts: laid end to end they give the parts back,
   * and no run is empty.
   */
  lemma {:induction false} RunsPartition<T>(parts: seq<T>, opens: seq<bool>)
    requires |parts| == |opens|
    ensures Flatten(Runs(parts, opens)) == parts
    ensures forall k :: 0 <= k < |Runs(parts, opens)| ==> Runs(parts, opens)[k] != []
  {
    if |parts| > 0 {
      var rest := Runs(parts[1..], opens[1..]);
      RunsPartition(parts[1..], opens[1..]);
      var r := Runs(parts, opens);
      if |parts| == 1 || opens[1] {
        assert r == [[parts[0]]] + rest;
        assert r[1..] == rest;
      } else {
        assert r == [[parts[0]] + rest[0]] + rest[1..];
        assert r[1..] == rest[1..];
        assert Flatten(rest) == rest[0] + Flatten(rest[1..]);
      }
      assert [parts[0]] + parts[1..] == parts;
    }
  }
}
