/** Delta debugging over feature flags: shrink a list of flags to one that still makes a program
    show the behaviour looked for. The oracle `hot` is any deterministic predicate on flag lists. */
module FlagBisect {
  import opened Wrappers

  type Flag = string
  type Oracle = seq<Flag> -> bool

  /** `part` is `flags` with some entries left out, in the same order. */
  ghost predicate Sublist(part: seq<Flag>, flags: seq<Flag>)
    decreases flags
  {
    part == [] || (flags != [] && ((part[0] == flags[0] && Sublist(part[1..], flags[1..])) || Sublist(part, flags[1..])))
  }

  /** Leaving out any one flag makes the list cold. */
  ghost predicate OneMinimal(hot: Oracle, flags: seq<Flag>) {
    forall i :: 0 <= i < |flags| ==> !hot(flags[..i] + flags[i + 1..])
  }

  lemma {:induction false} SublistTransitive(a: seq<Flag>, b: seq<Flag>, c: seq<Flag>)
    requires Sublist(a, b) && Sublist(b, c)
    ensures Sublist(a, c)
    decreases c
  {
    if a != [] {
      if Sublist(b, c[1..]) {
        SublistTransitive(a, b, c[1..]);
      } else if a[0] == b[0] && Sublist(a[1..], b[1..]) {
        SublistTransitive(a[1..], b[1..], c[1..]);
      } else {
        SublistTransitive(a, b[1..], c[1..]);
      }
    }
  }

  lemma {:induction false} SublistBehind(a: seq<Flag>, x: seq<Flag>, b: seq<Flag>)
    requires Sublist(a, b)
    ensures Sublist(a, x + b)
    decreases x
  {
    if x == [] {
      assert x + b == b;
    } else {
      SublistBehind(a, x[1..], b);
      assert (x + b)[1..] == x[1..] + b;
    }
  }

  lemma {:induction false} SublistPrefix(x: seq<Flag>, a: seq<Flag>, b: seq<Flag>)
    requires Sublist(a, b)
    ensures Sublist(x + a, x + b)
    decreases x
  {
    if x == [] {
      assert x + a == a && x + b == b;
    } else {
      SublistPrefix(x[1..], a, b);
      assert (x + a)[1..] == x[1..] + a && (x + b)[1..] == x[1..] + b;
      assert (x + a)[0] == (x + b)[0];
    }
  }

  lemma {:induction false} SublistOfItself(a: seq<Flag>)
    ensures Sublist(a, a)
  {
    assert a + [] == a;
    SublistPrefix(a, [], []);
  }

  /** The comprehension that builds a complement: the flags not among `drop`. */
  function Without(flags: seq<Flag>, drop: seq<Flag>): seq<Flag> {
    if flags == [] then []
    else (if flags[0] in drop then [] else [flags[0]]) + Without(flags[1..], drop)
  }

  lemma {:induction false} WithoutAppend(x: seq<Flag>, y: seq<Flag>, drop: seq<Flag>)
    ensures Without(x + y, drop) == Without(x, drop) + Without(y, drop)
  {
    if x == [] {
      assert x + y == y;
    } else {
      var head := if x[0] in drop then [] else [x[0]];
      assert (x + y)[0] == x[0] && (x + y)[1..] == x[1..] + y;
      WithoutAppend(x[1..], y, drop);
      assert head + (Without(x[1..], drop) + Without(y, drop)) == (head + Without(x[1..], drop)) + Without(y, drop);
    }
  }

  lemma {:induction false} WithoutOthers(x: seq<Flag>, drop: seq<Flag>)
    requires forall f :: f in x ==> f !in drop
    ensures Without(x, drop) == x
  {
    if x != [] {
      assert x[0] in x && forall f :: f in x[1..] ==> f in x;
      WithoutOthers(x[1..], drop);
      assert x == [x[0]] + x[1..];
    }
  }

  lemma {:induction false} WithoutAll(x: seq<Flag>, drop: seq<Flag>)
    requires forall f :: f in x ==> f in drop
    ensures Without(x, drop) == []
  {
    if x != [] {
      assert x[0] in x && forall f :: f in x[1..] ==> f in x;
      WithoutAll(x[1..], drop);
    }
  }

  lemma {:induction false} ComplementOfMiddle(x: seq<Flag>, m: seq<Flag>, y: seq<Flag>)
    requires forall f :: f in x || f in y ==> f !in m
    ensures Without(x + (m + y), m) == x + y
  {
    var tail := m + y;
    assert Without(tail, m) == y by {
      WithoutAppend(m, y, m);
      WithoutAll(m, m);
      WithoutOthers(y, m);
    }
    WithoutAppend(x, tail, m);
    WithoutOthers(x, m);
  }

  /** On distinct flags a complement is what surrounds the slice. */
  lemma {:induction false} ComplementOfSlice(flags: seq<Flag>, a: nat, b: nat)
    requires Distinct(flags) && a <= b <= |flags|
    ensures Without(flags, flags[a..b]) == flags[..a] + flags[b..]
  {
    var x, m, y := flags[..a], flags[a..b], flags[b..];
    forall f | f in x || f in y ensures f !in m {
      var i :| 0 <= i < |flags| && !(a <= i < b) && f == flags[i];
      assert forall j :: 0 <= j < |m| ==> m[j] == flags[a + j];
    }
    ComplementOfMiddle(x, m, y);
    assert flags == x + (m + y);
  }

  /** Dropping a slice, or keeping only a slice, gives a sublist. */
  lemma {:induction false} SliceFacts(flags: seq<Flag>, a: nat, b: nat)
    requires a <= b <= |flags|
    ensures Sublist(flags[a..b], flags) && Sublist(flags[..a] + flags[b..], flags)
  {
    var x, m, y := flags[..a], flags[a..b], flags[b..];
    assert Sublist(m, m + y) by {
      SublistPrefix(m, [], y);
      assert m + [] == m;
    }
    SublistBehind(m, x, m + y);
    SublistOfItself(y);
    SublistBehind(y, m, y);
    SublistPrefix(x, y, m + y);
    assert flags == x + (m + y);
  }

  /** ... with distinct flags. */
  lemma {:induction false} SliceDistinct(flags: seq<Flag>, a: nat, b: nat)
    requires Distinct(flags) && a <= b <= |flags|
    ensures Distinct(flags[a..b]) && Distinct(flags[..a] + flags[b..])
  {
    var rest := flags[..a] + flags[b..];
    forall i, j | 0 <= i < j < |rest| ensures rest[i] != rest[j] {
      var i', j' := if i < a then i else i + (b - a), if j < a then j else j + (b - a);
      assert rest[i] == flags[i'] && rest[j] == flags[j'];
    }
  }

  // ----- one round -----

  /** A candidate for the next list, with the granularity that goes with it. */
  datatype Job = Job(flags: seq<Flag>, granularity: nat)

  function Max(a: int, b: int): int { if a > b then a else b }
  function Min(a: int, b: int): int { if a < b then a else b }

  /** `pairwise_disjoints`: the slice a generator step yields; Python slices stop at the end. */
  function Slice(flags: seq<Flag>, offset: nat, len: nat): seq<Flag>
    requires offset <= |flags|
  {
    flags[offset..Min(offset + len, |flags|)]
  }

  /** The candidates for slices of some length from an offset on, in the order in which they are tried:
      for every slice, first its complement, then the slice itself. */
  function Tries(flags: seq<Flag>, coarser: nat, len: nat, offset: nat): seq<Job>
    requires len > 0
    decreases |flags| - offset
  {
    if offset >= |flags| then []
    else
      var slice := Slice(flags, offset, len);
      [Job(Without(flags, slice), coarser), Job(slice, 2)] + Tries(flags, coarser, len, offset + len)
  }

  /** The candidates of a round. */
  function Candidates(flags: seq<Flag>, granularity: nat): seq<Job>
    requires 1 <= granularity <= |flags|
  {
    Tries(flags, Max(granularity - 1, 2), |flags| / granularity, 0)
  }

  /** What makes a candidate a sound next step. */
  ghost predicate Shrinks(job: Job, flags: seq<Flag>, granularity: nat) {
    && job.flags != [] && |job.flags| < |flags| && Distinct(job.flags) && Sublist(job.flags, flags)
    && (|job.flags| >= 2 ==> 2 <= job.granularity <= |job.flags|)
    && (job.granularity == Max(granularity - 1, 2) || (job.granularity == 2 && 2 * |job.flags| <= |flags|))
  }

  /** Slices are never empty and never everything, and complements keep room for their granularity. */
  lemma {:induction false} SliceLength(n: nat, g: nat)
    requires 2 <= g <= n
    ensures 1 <= n / g && 2 * (n / g) <= n && n - n / g >= g - 1
    ensures g * (n / g) <= n < g * (n / g) + g
  {
    var q := n / g;
    assert n == g * q + n % g;
    assert q == 0 ==> g * q == 0;
    Scale(2, g, q);
    Scale(1, q, g - 1);
    assert (g - 1) * q == g * q - q;
  }

  lemma {:induction false} Scale(a: int, b: int, c: nat)
    requires a <= b
    ensures a * c <= b * c && c * a <= c * b
  {
    assert (b - a) * c >= 0;
  }

  /** Every candidate is a slice or its complement, and the two come together. */
  lemma {:induction false} TryForm(flags: seq<Flag>, coarser: nat, len: nat, offset: nat, job: Job) returns (a: nat, b: nat)
    requires len > 0 && job in Tries(flags, coarser, len, offset)
    ensures a < b <= |flags| && b - a <= len
    ensures job == Job(Without(flags, flags[a..b]), coarser) || job == Job(flags[a..b], 2)
    ensures Job(Without(flags, flags[a..b]), coarser) in Tries(flags, coarser, len, offset)
    decreases |flags| - offset
  {
    a, b := offset, Min(offset + len, |flags|);
    var two := [Job(Without(flags, flags[a..b]), coarser), Job(flags[a..b], 2)];
    assert Tries(flags, coarser, len, offset) == two + Tries(flags, coarser, len, offset + len);
    if job !in two {
      a, b := TryForm(flags, coarser, len, offset + len, job);
    } else {
      assert two[0] in two;
    }
  }

  /** The k-th slice of a length, and what is left without it, told by positions. */
  ghost predicate TriedAt(flags: seq<Flag>, coarser: nat, jobs: seq<Job>, k: nat, from: nat, to: nat) {
    && from <= to <= |flags| && 2 * k + 1 < |jobs|
    && jobs[2 * k + 1] == Job(flags[from..to], 2) && jobs[2 * k] == Job(Without(flags, flags[from..to]), coarser)
  }

  lemma {:induction false} TriedBehind(flags: seq<Flag>, coarser: nat, two: seq<Job>, more: seq<Job>, k: nat, from: nat, to: nat)
    requires |two| == 2 && k > 0 && TriedAt(flags, coarser, more, k - 1, from, to)
    ensures TriedAt(flags, coarser, two + more, k, from, to)
  {
    assert (two + more)[2 * k] == more[2 * (k - 1)] && (two + more)[2 * k + 1] == more[2 * (k - 1) + 1];
  }

  /** There is a k-th slice, from `from` on. */
  ghost predicate SliceTried(flags: seq<Flag>, coarser: nat, len: nat, jobs: seq<Job>, k: nat, from: nat) {
    && |jobs| % 2 == 0 && (2 * k + 1 < |jobs| <==> from < |flags|)
    && (from < |flags| ==> TriedAt(flags, coarser, jobs, k, from, Min(from + len, |flags|)))
  }

  lemma {:induction false} SliceTriedBehind(flags: seq<Flag>, coarser: nat, len: nat, two: seq<Job>, more: seq<Job>, k: nat, from: nat)
    requires |two| == 2 && k > 0 && SliceTried(flags, coarser, len, more, k - 1, from)
    ensures SliceTried(flags, coarser, len, two + more, k, from)
  {
    if from < |flags| {
      TriedBehind(flags, coarser, two, more, k, from, Min(from + len, |flags|));
    }
  }

  lemma {:induction false} TriesAt(flags: seq<Flag>, coarser: nat, len: nat, offset: nat, k: nat, from: nat)
    requires len > 0 && from == offset + k * len
    ensures SliceTried(flags, coarser, len, Tries(flags, coarser, len, offset), k, from)
    decreases k
  {
    ProductStep(k, len);
    EvenTries(flags, coarser, len, offset);
    if offset < |flags| && k > 0 {
      var two, more := Tries(flags, coarser, len, offset)[..2], Tries(flags, coarser, len, offset + len);
      assert Tries(flags, coarser, len, offset) == two + more;
      TriesAt(flags, coarser, len, offset + len, k - 1, from);
      SliceTriedBehind(flags, coarser, len, two, more, k, from);
    }
  }

  lemma {:induction false} ProductStep(k: nat, len: nat)
    ensures 0 <= k * len && (k > 0 ==> k * len == (k - 1) * len + len)
  {
    Scale(0, k, len);
  }

  lemma {:induction false} EvenTries(flags: seq<Flag>, coarser: nat, len: nat, offset: nat)
    requires len > 0
    ensures |Tries(flags, coarser, len, offset)| % 2 == 0
    decreases |flags| - offset
  {
    if offset < |flags| {
      EvenTries(flags, coarser, len, offset + len);
    }
  }

  /** The candidates of a round, all of them: the flags are cut into slices of the greatest length of which
      as many as the granularity fit, the last one cut short, and for each its complement comes first. */
  lemma {:induction false} CandidatesAt(flags: seq<Flag>, granularity: nat, len: nat, k: nat)
    requires 1 <= granularity <= |flags| && len * granularity <= |flags| < (len + 1) * granularity
    ensures 0 <= k * len && SliceTried(flags, Max(granularity - 1, 2), len, Candidates(flags, granularity), k, k * len)
  {
    LengthIs(|flags|, granularity, len);
    ProductStep(k, len);
    TriesAt(flags, Max(granularity - 1, 2), len, 0, k, k * len);
  }

  lemma {:induction false} LengthIs(n: nat, g: nat, len: nat)
    requires 1 <= g <= n && len * g <= n < (len + 1) * g
    ensures len == n / g && 1 <= len
  {
    var q := n / g;
    assert n == g * q + n % g;
    if len < q {
      Scale(len + 1, q, g);
    } else if q < len {
      Scale(q + 1, len, g);
    }
  }

  /** Every candidate comes from a nonempty slice that is not longer than its share. */
  lemma {:induction false} CandidateForm(flags: seq<Flag>, granularity: nat, job: Job) returns (a: nat, b: nat)
    requires 2 <= granularity <= |flags| && job in Candidates(flags, granularity)
    ensures a < b <= |flags| && 2 * (b - a) <= |flags| && |flags| - (b - a) >= granularity - 1
    ensures job == Job(Without(flags, flags[a..b]), Max(granularity - 1, 2)) || job == Job(flags[a..b], 2)
    ensures Job(Without(flags, flags[a..b]), Max(granularity - 1, 2)) in Candidates(flags, granularity)
  {
    SliceLength(|flags|, granularity);
    a, b := TryForm(flags, Max(granularity - 1, 2), |flags| / granularity, 0, job);
  }

  lemma {:induction false} CandidatesShrink(flags: seq<Flag>, granularity: nat, job: Job)
    requires Distinct(flags) && 2 <= granularity <= |flags| && job in Candidates(flags, granularity)
    ensures Shrinks(job, flags, granularity)
  {
    var a, b := CandidateForm(flags, granularity, job);
    ComplementOfSlice(flags, a, b);
    SliceFacts(flags, a, b);
    SliceDistinct(flags, a, b);
  }

  /** With slices of one flag every single flag is left out once. */
  lemma {:induction false} CandidatesDropEach(flags: seq<Flag>, coarser: nat, offset: nat, i: nat)
    requires Distinct(flags) && offset <= i < |flags|
    ensures exists j :: j in Tries(flags, coarser, 1, offset) && j.flags == flags[..i] + flags[i + 1..]
    decreases i - offset
  {
    var all := Tries(flags, coarser, 1, offset);
    if offset == i {
      ComplementOfSlice(flags, i, i + 1);
      assert all[0].flags == flags[..i] + flags[i + 1..];
    } else {
      CandidatesDropEach(flags, coarser, offset + 1, i);
      var j :| j in Tries(flags, coarser, 1, offset + 1) && j.flags == flags[..i] + flags[i + 1..];
      assert j in all;
    }
  }

  /** A round has at most two candidates per flag, and at most four per unit of granularity. */
  lemma {:induction false} CandidatesCount(flags: seq<Flag>, granularity: nat)
    requires 2 <= granularity <= |flags|
    ensures |Candidates(flags, granularity)| <= 2 * |flags|
    ensures |Candidates(flags, granularity)| <= 4 * granularity
  {
    var n, q := |flags|, |flags| / granularity;
    SliceLength(n, granularity);
    var k := |Candidates(flags, granularity)|;
    CandidatesSpan(flags, Max(granularity - 1, 2), 0, q);
    CountBound(n, granularity, q, k);
  }

  lemma {:induction false} TwoMore(k: nat, q: nat)
    ensures (k + 2) * q == k * q + 2 * q && 0 * q == 0
  {
  }

  lemma {:induction false} CountBound(n: nat, g: nat, q: nat, k: nat)
    requires 2 <= g && 1 <= q && n < g * q + g && k * q <= 2 * (n + q - 1)
    ensures k <= 4 * g
  {
    var gq := g * q;
    assert (4 * g + 1) * q == 4 * gq + q;
    assert g <= gq by { Scale(1, q, g); }
    assert 2 * q <= gq by { Scale(2, g, q); }
    if k > 4 * g {
      Scale(4 * g + 1, k, q);
    }
  }

  lemma {:induction false} CandidatesSpan(flags: seq<Flag>, coarser: nat, offset: nat, q: nat)
    requires q > 0
    ensures offset < |flags| ==> |Tries(flags, coarser, q, offset)| * q <= 2 * (|flags| - offset + q - 1)
    ensures offset < |flags| ==> |Tries(flags, coarser, q, offset)| <= 2 * (|flags| - offset)
    decreases |flags| - offset
  {
    if offset < |flags| {
      CandidatesSpan(flags, coarser, offset + q, q);
      var k := |Tries(flags, coarser, q, offset + q)|;
      assert |Tries(flags, coarser, q, offset)| == k + 2;
      TwoMore(k, q);
    }
  }

  /** What a round decides: the first hot candidate, if there is one. */
  function FirstHot(hot: Oracle, jobs: seq<Job>): (r: Option<Job>)
    ensures r.Some? ==> r.value in jobs && hot(r.value.flags)
    ensures r.None? ==> forall j :: j in jobs ==> !hot(j.flags)
  {
    if jobs == [] then None
    else if hot(jobs[0].flags) then Some(jobs[0])
    else FirstHot(hot, jobs[1..])
  }

  /** The candidate taken is hot, and everything tried before it is not. */
  lemma {:induction false} FirstHotIsFirst(hot: Oracle, jobs: seq<Job>) returns (i: nat)
    ensures FirstHot(hot, jobs).Some? ==> i < |jobs| && FirstHot(hot, jobs) == Some(jobs[i]) && hot(jobs[i].flags)
    ensures forall k :: 0 <= k < i && k < |jobs| ==> !hot(jobs[k].flags)
  {
    i := 0;
    if jobs != [] && !hot(jobs[0].flags) {
      i := FirstHotIsFirst(hot, jobs[1..]);
      i := i + 1;
      assert forall k :: 1 <= k < i && k < |jobs| ==> jobs[k] == jobs[1..][k - 1];
    }
  }

  /** With more slices asked for than there are flags, the slices are empty and the first complement is
      the whole list, which the search has found hot before it got there. */
  ghost predicate Ready(hot: Oracle, current: seq<Flag>, granularity: int) {
    granularity >= 2 && (granularity <= |current| || |current| < 2 || hot(current))
  }

  function RoundOf(hot: Oracle, current: seq<Flag>, granularity: nat): Option<Job>
    requires |current| >= 2 && Ready(hot, current, granularity)
  {
    if granularity > |current| then Some(Job(current, granularity - 1))
    else FirstHot(hot, Candidates(current, granularity))
  }

  lemma {:induction false} FirstHotIs(hot: Oracle, jobs: seq<Job>, k: nat)
    requires k < |jobs| && hot(jobs[k].flags) && forall i :: 0 <= i < k ==> !hot(jobs[i].flags)
    ensures FirstHot(hot, jobs) == Some(jobs[k])
  {
    if k > 0 {
      assert forall i :: 0 <= i < k - 1 ==> jobs[1..][i] == jobs[i + 1];
      FirstHotIs(hot, jobs[1..], k - 1);
    }
  }

  /** The candidates tried so far were cold, and those from this offset on are still to be tried. */
  ghost predicate Trying(hot: Oracle, current: seq<Flag>, coarser: nat, len: nat, offset: nat, all: seq<Job>, tried: nat) {
    && len > 0 && tried <= |all| && all[tried..] == Tries(current, coarser, len, offset)
    && forall k :: 0 <= k < tried ==> !hot(all[k].flags)
  }

  /** The outcome of a round in which `calls` candidates were tried: the last one was the first hot one,
      or all of them were cold. */
  ghost predicate Decided(hot: Oracle, all: seq<Job>, found: Option<Job>, calls: nat) {
    && calls <= |all| && found == FirstHot(hot, all)
    && (if found.Some? then calls > 0 && all[calls - 1] == found.value else calls == |all|)
    && forall k :: 0 <= k < (if found.Some? then calls - 1 else calls) ==> !hot(all[k].flags)
  }

  /** The next two candidates are a complement and its slice: one of them decides, or both are cold. */
  lemma {:induction false} NextTwo(hot: Oracle, current: seq<Flag>, coarser: nat, len: nat, offset: nat, all: seq<Job>, tried: nat)
    requires Trying(hot, current, coarser, len, offset, all, tried) && offset < |current|
    ensures var slice := Slice(current, offset, len); var complement := Without(current, slice);
            if hot(complement) then Decided(hot, all, Some(Job(complement, coarser)), tried + 1)
            else if hot(slice) then Decided(hot, all, Some(Job(slice, 2)), tried + 2)
            else Trying(hot, current, coarser, len, offset + len, all, tried + 2)
  {
    var jobs, slice := all[tried..], Slice(current, offset, len);
    var rest := Tries(current, coarser, len, offset + len);
    assert jobs == [Job(Without(current, slice), coarser), Job(slice, 2)] + rest;
    assert all[tried] == jobs[0] && all[tried + 1] == jobs[1];
    assert all[tried + 2..] == jobs[2..] == rest;
    if hot(Without(current, slice)) {
      FirstHotIs(hot, all, tried);
    } else if hot(slice) {
      FirstHotIs(hot, all, tried + 1);
    }
  }

  lemma {:induction false} AllTried(hot: Oracle, current: seq<Flag>, coarser: nat, len: nat, offset: nat, all: seq<Job>, tried: nat)
    requires Trying(hot, current, coarser, len, offset, all, tried) && offset >= |current|
    ensures Decided(hot, all, None, tried)
  {
    assert tried == |all|;
  }

  lemma {:induction false} SliceLengthZero(n: nat, g: nat)
    requires n < g
    ensures n / g == 0
  {
  }

  lemma {:induction false} EmptySlice(current: seq<Flag>)
    ensures Slice(current, 0, 0) == [] && Without(current, []) == current
  {
    WithoutOthers(current, []);
  }

  /** The inner loop of `ddmin`: try the candidates in order and take the first hot one. */
  method Round(hot: Oracle, current: seq<Flag>, granularity: nat)
    returns (changed: bool, next: seq<Flag>, newGranularity: nat, calls: nat)
    requires |current| >= 2 && Ready(hot, current, granularity)
    ensures RoundOf(hot, current, granularity) == if changed then Some(Job(next, newGranularity)) else None
    ensures if granularity > |current| then calls == 1
            else Decided(hot, Candidates(current, granularity), RoundOf(hot, current, granularity), calls)
  {
    var sliceLength := |current| / granularity;
    if granularity > |current| {
      SliceLengthZero(|current|, granularity);
    } else {
      SliceLength(|current|, granularity);
    }
    var found;
    found, calls := TrySlices(hot, current, granularity, sliceLength);
    changed := found.Some?;
    next := if changed then found.value.flags else current;
    newGranularity := if changed then found.value.granularity else granularity;
  }

  /** The loop over slices, before it is decided: empty slices leave it at the start. */
  ghost predicate TryState(hot: Oracle, current: seq<Flag>, coarser: nat, len: nat, offset: nat, calls: nat) {
    if len == 0 then offset == calls == 0
    else Trying(hot, current, coarser, len, offset, Tries(current, coarser, len, 0), calls)
  }

  /** The loop over slices, decided: with empty slices the first complement is the whole list. */
  ghost predicate Settled(hot: Oracle, current: seq<Flag>, coarser: nat, len: nat, found: Option<Job>, calls: nat) {
    if len == 0 then found == Some(Job(current, coarser)) && calls == 1
    else Decided(hot, Tries(current, coarser, len, 0), found, calls)
  }

  lemma {:induction false} TryStep(hot: Oracle, current: seq<Flag>, coarser: nat, len: nat, offset: nat, calls: nat)
    requires TryState(hot, current, coarser, len, offset, calls) && offset < |current| && (len == 0 ==> hot(current))
    ensures var slice := Slice(current, offset, len); var complement := Without(current, slice);
            if hot(complement) then Settled(hot, current, coarser, len, Some(Job(complement, coarser)), calls + 1)
            else if hot(slice) then Settled(hot, current, coarser, len, Some(Job(slice, 2)), calls + 2)
            else len > 0 && TryState(hot, current, coarser, len, offset + len, calls + 2)
  {
    if len > 0 {
      NextTwo(hot, current, coarser, len, offset, Tries(current, coarser, len, 0), calls);
    } else {
      EmptySlice(current);
    }
  }

  lemma {:induction false} TryEnd(hot: Oracle, current: seq<Flag>, coarser: nat, len: nat, offset: nat, calls: nat)
    requires current != [] && TryState(hot, current, coarser, len, offset, calls) && offset >= |current|
    ensures Settled(hot, current, coarser, len, None, calls)
  {
    AllTried(hot, current, coarser, len, offset, Tries(current, coarser, len, 0), calls);
  }

  /** The loop over the slices of a given length. */
  method TrySlices(hot: Oracle, current: seq<Flag>, granularity: nat, sliceLength: nat) returns (found: Option<Job>, calls: nat)
    requires current != [] && granularity >= 2 && (sliceLength == 0 ==> hot(current))
    ensures Settled(hot, current, Max(granularity - 1, 2), sliceLength, found, calls)
  {
    calls := 0;
    var offset, coarser := 0, Max(granularity - 1, 2);
    while offset < |current|
      invariant TryState(hot, current, coarser, sliceLength, offset, calls)
      decreases |current| - offset
    {
      var subset := Slice(current, offset, sliceLength);
      var complement := Without(current, subset);
      TryStep(hot, current, coarser, sliceLength, offset, calls);
      calls := calls + 1;
      if hot(complement) {
        return Some(Job(complement, coarser)), calls;
      }
      calls := calls + 1;
      if hot(subset) {
        return Some(Job(subset, 2)), calls;
      }
      offset := offset + sliceLength;
    }
    TryEnd(hot, current, coarser, sliceLength, offset, calls);
    return None, calls;
  }

  /** What both searches promise about the list they return. */
  ghost predicate Minimised(hot: Oracle, initial: seq<Flag>, result: seq<Flag>) {
    && Sublist(result, initial)
    && (initial != [] ==> result != [])
    && (result == initial || hot(result))
    && (|result| >= 2 ==> OneMinimal(hot, result))
  }

  /** The state both searches keep at the head of their loop. */
  ghost predicate Searching(hot: Oracle, initial: seq<Flag>, current: seq<Flag>, granularity: int) {
    && Sublist(current, initial) && Distinct(current)
    && (initial != [] ==> current != [])
    && (current == initial || hot(current))
    && granularity >= 2 && (|current| >= 2 ==> granularity <= |current|)
  }

  lemma {:induction false} StepShrinks(hot: Oracle, initial: seq<Flag>, current: seq<Flag>, granularity: nat, job: Job)
    requires Searching(hot, initial, current, granularity) && |current| >= 2
    requires job in Candidates(current, granularity) && hot(job.flags)
    ensures Searching(hot, initial, job.flags, job.granularity) && Shrinks(job, current, granularity)
  {
    CandidatesShrink(current, granularity, job);
    SublistTransitive(job.flags, current, initial);
  }

  lemma {:induction false} StuckIsMinimal(hot: Oracle, current: seq<Flag>)
    requires Distinct(current) && |current| >= 2
    requires forall j :: j in Candidates(current, |current|) ==> !hot(j.flags)
    ensures OneMinimal(hot, current)
  {
    forall i | 0 <= i < |current| ensures !hot(current[..i] + current[i + 1..]) {
      CandidatesDropEach(current, Max(|current| - 1, 2), 0, i);
      assert |current| / |current| == 1;
    }
  }

  // ----- counting oracle calls -----

  function Cubic(n: nat): nat {
    if n <= 1 then 0 else Cubic(n - 1) + 2 * (n * (n - 1))
  }

  lemma {:induction false} CubicClosedForm(n: nat)
    requires n >= 1
    ensures 3 * Cubic(n) == 2 * (n * (n - 1) * (n + 1))
  {
    if n > 1 {
      CubicClosedForm(n - 1);
      Regroup(n, n - 1, n - 2);
      Spread(n * (n - 1), n - 2);
    }
  }

  lemma {:induction false} Regroup(a: int, b: int, c: int)
    ensures b * c * a == a * b * c
  {
    assert b * c * a == (b * a) * c;
  }

  lemma {:induction false} Spread(m: int, c: int)
    ensures m * (c + 3) == m * c + 3 * m
  {
  }

  lemma {:induction false} CubicMonotone(m: nat, n: nat)
    requires m <= n
    ensures Cubic(m) <= Cubic(n)
    decreases n - m
  {
    if m < n {
      CubicMonotone(m, n - 1);
      assert n > 1 ==> 2 * n * (n - 1) >= 0;
    }
  }

  /** Calls still possible: one full round per unit of granularity and length. */
  function CubicBudget(n: nat, g: nat): int {
    if n < 2 then 0 else Cubic(n - 1) + 2 * (n * (n - g + 1))
  }

  /** Calls still possible when doubling is taken into account. */
  function QuadraticBudget(n: nat, g: nat): int {
    if n < 2 then 0 else 2 * (n * n) + 6 * n - 4 * g + (if g < n then 2 * n else 0)
  }

  lemma {:induction false} BudgetOfMove(n: nat, g: nat, n': nat, g': nat)
    requires 2 <= g <= n && 1 <= n' < n && (n' >= 2 ==> 2 <= g' <= n')
    requires g' == Max(g - 1, 2) || (g' == 2 && 2 * n' <= n)
    ensures CubicBudget(n', g') + 2 * n <= CubicBudget(n, g)
    ensures QuadraticBudget(n', g') + 2 * n <= QuadraticBudget(n, g)
  {
    CubicMonotone(n', n - 1);
    Scale(1, n - g + 1, n);
    if n' >= 2 {
      Scale(n' - g' + 1, n' - 1, n');
      MoveQuadratic(n, g, n', g');
    } else {
      Scale(1, n, n);
    }
  }

  lemma {:induction false} MoveQuadratic(n: nat, g: nat, n': nat, g': nat)
    requires 2 <= g <= n && 2 <= n' < n && 2 <= g' <= n'
    requires g' == Max(g - 1, 2) || (g' == 2 && 2 * n' <= n)
    ensures QuadraticBudget(n', g') + 2 * n <= QuadraticBudget(n, g)
  {
    var d := n - n';
    Square(n', d);
    Scale(1, d, n');
    Scale(1, d, d);
    if g' != Max(g - 1, 2) {
      Scale(2, n', d);
      Scale(2, d, d);
    }
  }

  lemma {:induction false} Square(a: int, b: int)
    ensures (a + b) * (a + b) == a * a + 2 * (b * a) + b * b
  {
  }

  lemma {:induction false} BudgetOfRefinement(n: nat, g: nat, calls: nat)
    requires 2 <= g <= n && calls <= 2 * n && calls <= 4 * g
    ensures g < n ==> CubicBudget(n, Min(g * 2, n)) + calls <= CubicBudget(n, g)
    ensures g < n ==> QuadraticBudget(n, Min(g * 2, n)) + calls <= QuadraticBudget(n, g)
    ensures g == n ==> calls <= CubicBudget(n, g) && calls <= QuadraticBudget(n, g)
  {
    if g < n {
      var g' := Min(g * 2, n);
      Scale(n - g' + 2, n - g + 1, n);
      assert n * (n - g' + 2) == n * (n - g' + 1) + n;
    } else {
      Scale(2, n, n);
    }
  }

  /** On `n` flags: a cubic bound, sharp for few flags, and a quadratic one, sharp for many. */
  ghost predicate WithinBounds(n: nat, calls: nat) {
    && (if n < 2 then calls == 0 else 3 * calls <= 2 * (n * (n - 1) * (n + 1)))
    && calls <= 2 * (n * n) + 8 * n
  }

  lemma {:induction false} BudgetBounds(n: nat, calls: nat)
    requires calls <= CubicBudget(n, 2) && calls <= QuadraticBudget(n, 2)
    ensures WithinBounds(n, calls)
  {
    if n >= 2 {
      CubicClosedForm(n);
    }
  }

  // ----- the search -----

  lemma {:induction false} WithoutSublist(flags: seq<Flag>, drop: seq<Flag>)
    ensures Sublist(Without(flags, drop), flags)
    ensures (exists f :: f in flags && f in drop) ==> |Without(flags, drop)| < |flags|
  {
    if flags != [] {
      WithoutSublist(flags[1..], drop);
      SublistShorter(Without(flags[1..], drop), flags[1..]);
      var rest := Without(flags[1..], drop);
      if flags[0] !in drop {
        assert Without(flags, drop)[1..] == rest && flags == [flags[0]] + flags[1..];
      } else {
        assert Without(flags, drop) == rest;
      }
    }
  }

  lemma {:induction false} SublistShorter(a: seq<Flag>, b: seq<Flag>)
    requires Sublist(a, b)
    ensures |a| <= |b|
    decreases b
  {
    if a != [] {
      if a[0] == b[0] && Sublist(a[1..], b[1..]) { SublistShorter(a[1..], b[1..]); } else { SublistShorter(a, b[1..]); }
    }
  }

  /** Distinct or not, candidates are shorter sublists. */
  lemma {:induction false} CandidatesAreShorter(flags: seq<Flag>, granularity: nat, job: Job)
    requires 2 <= granularity <= |flags| && job in Candidates(flags, granularity)
    ensures |job.flags| < |flags| && Sublist(job.flags, flags) && job.granularity >= 2
  {
    var a, b := CandidateForm(flags, granularity, job);
    SliceFacts(flags, a, b);
    var slice := flags[a..b];
    assert slice[0] in flags && slice[0] in slice;
    WithoutSublist(flags, slice);
  }

  lemma {:induction false} RoundProgress(hot: Oracle, current: seq<Flag>, granularity: nat)
    requires |current| >= 2 && Ready(hot, current, granularity) && RoundOf(hot, current, granularity).Some?
    ensures var job := RoundOf(hot, current, granularity).value;
            && hot(job.flags) && job.granularity >= 2 && Sublist(job.flags, current)
            && (if granularity > |current| then job == Job(current, granularity - 1) else |job.flags| < |current|)
  {
    if granularity > |current| {
      SublistOfItself(current);
    } else {
      CandidatesAreShorter(current, granularity, RoundOf(hot, current, granularity).value);
    }
  }

  /** `ddmin` from some list and granularity on, for any flags. */
  function Minimise(hot: Oracle, current: seq<Flag>, granularity: nat): seq<Flag>
    requires Ready(hot, current, granularity)
    decreases |current|, if granularity > |current| then |current| + granularity else |current| - granularity
  {
    if |current| < 2 then current
    else
      var r := RoundOf(hot, current, granularity);
      if r.Some? then
        RoundProgress(hot, current, granularity);
        Minimise(hot, r.value.flags, r.value.granularity)
      else if granularity == |current| then current
      else Minimise(hot, current, Min(granularity * 2, |current|))
  }

  /** On distinct flags the search minimises. */
  lemma {:induction false} MinimiseMinimises(hot: Oracle, initial: seq<Flag>, current: seq<Flag>, granularity: nat)
    requires Searching(hot, initial, current, granularity)
    ensures Minimised(hot, initial, Minimise(hot, current, granularity))
    decreases |current|, |current| - granularity
  {
    if |current| >= 2 {
      var r := RoundOf(hot, current, granularity);
      if r.Some? {
        StepShrinks(hot, initial, current, granularity, r.value);
        MinimiseMinimises(hot, initial, r.value.flags, r.value.granularity);
      } else if granularity == |current| {
        StuckIsMinimal(hot, current);
      } else {
        MinimiseMinimises(hot, initial, current, Min(granularity * 2, |current|));
      }
    }
  }

  // ----- the parallel search as a relation -----

  /** Some order in which jobs finish, round by round, ends the parallel search with `r`: any hot
      candidate may finish first. With more slices than flags, slices are empty and the round starts
      jobs for ever: `None`. */
  ghost predicate Ends(hot: Oracle, current: seq<Flag>, granularity: nat, r: Option<seq<Flag>>)
    requires granularity >= 2
    decreases |current|, |current| - granularity
  {
    if |current| < 2 then r == Some(current)
    else if granularity > |current| then r == None
    else if exists job :: job in Candidates(current, granularity) && hot(job.flags) then
      exists job :: job in Candidates(current, granularity) && hot(job.flags) && EndsBy(hot, current, granularity, job, r)
    else if granularity == |current| then r == Some(current)
    else Ends(hot, current, Min(granularity * 2, |current|), r)
  }

  ghost predicate EndsBy(hot: Oracle, current: seq<Flag>, granularity: nat, job: Job, r: Option<seq<Flag>>)
    requires 2 <= granularity <= |current| && job in Candidates(current, granularity)
    decreases |current|, -1
  {
    CandidatesAreShorter(current, granularity, job);
    Ends(hot, job.flags, job.granularity, r)
  }

  /** On distinct flags every order ends the search, with a minimised list. */
  lemma {:induction false} EveryOrderMinimises(hot: Oracle, initial: seq<Flag>, current: seq<Flag>, granularity: nat, r: Option<seq<Flag>>)
    requires Searching(hot, initial, current, granularity) && Ends(hot, current, granularity, r)
    ensures r.Some? && Minimised(hot, initial, r.value)
    decreases |current|, |current| - granularity
  {
    if |current| >= 2 {
      if exists job :: job in Candidates(current, granularity) && hot(job.flags) {
        var job :| job in Candidates(current, granularity) && hot(job.flags) && EndsBy(hot, current, granularity, job, r);
        StepShrinks(hot, initial, current, granularity, job);
        EveryOrderMinimises(hot, initial, job.flags, job.granularity, r);
      } else if granularity == |current| {
        StuckIsMinimal(hot, current);
      } else {
        EveryOrderMinimises(hot, initial, current, Min(granularity * 2, |current|), r);
      }
    }
  }

  // ----- repeated flags -----

  function FlagSet(flags: seq<Flag>): set<Flag> {
    set f | f in flags
  }

  /** The oracle looks at which flags are set, not at their order or number. */
  ghost predicate OnSets(hot: Oracle) {
    forall a, b :: FlagSet(a) == FlagSet(b) ==> hot(a) == hot(b)
  }

  lemma {:induction false} WithoutMembers(flags: seq<Flag>, drop: seq<Flag>)
    ensures forall f :: f in Without(flags, drop) <==> f in flags && f !in drop
  {
    if flags != [] {
      WithoutMembers(flags[1..], drop);
      var rest := Without(flags[1..], drop);
      assert Without(flags, drop) == if flags[0] in drop then rest else [flags[0]] + rest;
      assert flags == [flags[0]] + flags[1..];
    }
  }

  /** Hot only without any flag. */
  function Nothing(): Oracle {
    (l: seq<Flag>) => l == []
  }

  /** Hot only with all flags. */
  function Everything(flags: seq<Flag>): Oracle {
    (l: seq<Flag>) => FlagSet(l) == FlagSet(flags)
  }

  lemma {:induction false} BothOnSets(flags: seq<Flag>)
    ensures OnSets(Nothing()) && OnSets(Everything(flags))
  {
    forall a: seq<Flag>, b: seq<Flag> | FlagSet(a) == FlagSet(b) ensures (a == []) == (b == []) {
      if a != [] { assert a[0] in FlagSet(a); }
      if b != [] { assert b[0] in FlagSet(b); }
    }
  }

  /** A slice and its complement: one of them lacks a flag, and if the slice lacks none, nothing is left. */
  lemma {:induction false} SliceOrRest(flags: seq<Flag>, slice: seq<Flag>)
    requires slice != [] && slice[0] in flags
    ensures FlagSet(Without(flags, slice)) != FlagSet(flags)
    ensures FlagSet(slice) == FlagSet(flags) ==> Without(flags, slice) == []
  {
    var rest := Without(flags, slice);
    WithoutMembers(flags, slice);
    assert slice[0] in FlagSet(flags) && slice[0] !in FlagSet(rest);
    if rest != [] {
      assert rest[0] in FlagSet(flags) && rest[0] !in FlagSet(slice);
    }
  }

  /** A candidate that still has all flags is a slice, and leaves nothing for its complement. */
  lemma {:induction false} AllOrNothing(flags: seq<Flag>, granularity: nat, job: Job) returns (other: Job)
    requires 2 <= granularity <= |flags| && job in Candidates(flags, granularity) && FlagSet(job.flags) == FlagSet(flags)
    ensures other in Candidates(flags, granularity) && other.flags == []
  {
    var a, b := CandidateForm(flags, granularity, job);
    assert flags[a..b][0] == flags[a];
    SliceOrRest(flags, flags[a..b]);
    other := Job(Without(flags, flags[a..b]), Max(granularity - 1, 2));
  }

  /** Either search ends with no flag for one of the oracles, or with the whole list for the other. */
  ghost predicate EmptyOrWhole(flags: seq<Flag>, granularity: nat)
    requires 2 <= granularity <= |flags|
  {
    || (Minimise(Nothing(), flags, granularity) == [] && Ends(Nothing(), flags, granularity, Some([])))
    || (Minimise(Everything(flags), flags, granularity) == flags && Ends(Everything(flags), flags, granularity, Some(flags)))
  }

  lemma {:induction false} EmptyFound(flags: seq<Flag>, granularity: nat, job: Job)
    requires 2 <= granularity <= |flags| && job in Candidates(flags, granularity) && job.flags == []
    ensures EmptyOrWhole(flags, granularity)
  {
    var r := RoundOf(Nothing(), flags, granularity);
    assert r.Some? && r.value.flags == [];
    RoundProgress(Nothing(), flags, granularity);
    assert Minimise(Nothing(), [], r.value.granularity) == [];
    assert EndsBy(Nothing(), flags, granularity, job, Some([]));
  }

  lemma {:induction false} NothingFound(hot: Oracle, flags: seq<Flag>, granularity: nat, r: Option<seq<Flag>>)
    requires 2 <= granularity <= |flags| && forall job :: job in Candidates(flags, granularity) ==> !hot(job.flags)
    ensures granularity == |flags| ==> Minimise(hot, flags, granularity) == flags && Ends(hot, flags, granularity, Some(flags))
    ensures granularity < |flags| ==>
              var finer := Min(granularity * 2, |flags|);
              Minimise(hot, flags, granularity) == Minimise(hot, flags, finer) && (Ends(hot, flags, granularity, r) <==> Ends(hot, flags, finer, r))
  {
    assert RoundOf(hot, flags, granularity).None?;
  }

  lemma {:induction false} EmptyOrWholeFrom(flags: seq<Flag>, granularity: nat)
    requires 2 <= granularity <= |flags|
    ensures EmptyOrWhole(flags, granularity)
    decreases |flags| - granularity
  {
    if job :| job in Candidates(flags, granularity) && job.flags == [] {
      EmptyFound(flags, granularity, job);
    } else {
      forall job | job in Candidates(flags, granularity) ensures FlagSet(job.flags) != FlagSet(flags) {
        if FlagSet(job.flags) == FlagSet(flags) {
          var other := AllOrNothing(flags, granularity, job);
        }
      }
      NothingFound(Nothing(), flags, granularity, Some([]));
      NothingFound(Everything(flags), flags, granularity, Some(flags));
      if granularity < |flags| {
        EmptyOrWholeFrom(flags, Min(granularity * 2, |flags|));
      }
    }
  }

  /** Neither is minimised when a flag is repeated: no flag is too few, and the whole list keeps all
      flags without one of the equal ones. */
  lemma {:induction false} NeitherMinimised(flags: seq<Flag>, i: nat, j: nat)
    requires i < j < |flags| && flags[i] == flags[j]
    ensures !Minimised(Nothing(), flags, []) && !Minimised(Everything(flags), flags, flags)
  {
    var rest := flags[..i] + flags[i + 1..];
    forall f | f in flags ensures f in rest {
      var k :| 0 <= k < |flags| && flags[k] == f;
      if k < i { assert rest[k] == f; } else if k > i { assert rest[k - 1] == f; } else { assert rest[j - 1] == f; }
    }
    assert FlagSet(rest) == FlagSet(flags);
    assert Everything(flags)(rest);
  }

  /** With a flag given twice, an oracle on sets of flags defeats both searches: the one that is hot only
      without any flag, or the one that is hot only with all of them. */
  lemma {:induction false} RepeatedFlags(flags: seq<Flag>, i: nat, j: nat) returns (hot: Oracle, r: seq<Flag>)
    requires i < j < |flags| && flags[i] == flags[j]
    ensures OnSets(hot) && Minimise(hot, flags, 2) == r && Ends(hot, flags, 2, Some(r)) && !Minimised(hot, flags, r)
  {
    EmptyOrWholeFrom(flags, 2);
    BothOnSets(flags);
    NeitherMinimised(flags, i, j);
    if Minimise(Nothing(), flags, 2) == [] && Ends(Nothing(), flags, 2, Some([])) {
      hot, r := Nothing(), [];
    } else {
      hot, r := Everything(flags), flags;
    }
  }

  /** The search minimises for every oracle, and already for every oracle on sets of flags, exactly on
      the lists without a repeated flag. */
  lemma {:induction false} MinimisesIffDistinct(flags: seq<Flag>)
    ensures Distinct(flags) ==> forall hot: Oracle :: Minimised(hot, flags, Minimise(hot, flags, 2))
    ensures (forall hot: Oracle :: OnSets(hot) ==> Minimised(hot, flags, Minimise(hot, flags, 2))) <==> Distinct(flags)
  {
    if Distinct(flags) {
      SublistOfItself(flags);
      forall hot: Oracle ensures Minimised(hot, flags, Minimise(hot, flags, 2)) {
        MinimiseMinimises(hot, flags, flags, 2);
      }
    } else {
      var i, j :| 0 <= i < j < |flags| && flags[i] == flags[j];
      var hot, r := RepeatedFlags(flags, i, j);
      assert !Minimised(hot, flags, Minimise(hot, flags, 2));
    }
  }

  /** Whatever the order in which jobs finish, the search ends with a minimised list. */
  ghost predicate AlwaysMinimises(hot: Oracle, flags: seq<Flag>) {
    forall r :: Ends(hot, flags, 2, r) ==> r.Some? && Minimised(hot, flags, r.value)
  }

  /** The parallel search minimises in every order of completion, for every oracle, and already for every
      oracle on sets of flags, exactly on the lists without a repeated flag. */
  lemma {:induction false} ParallelMinimisesIffDistinct(flags: seq<Flag>)
    ensures Distinct(flags) ==> forall hot: Oracle :: AlwaysMinimises(hot, flags)
    ensures (forall hot: Oracle :: OnSets(hot) ==> AlwaysMinimises(hot, flags)) <==> Distinct(flags)
  {
    if Distinct(flags) {
      SublistOfItself(flags);
      forall hot: Oracle ensures AlwaysMinimises(hot, flags) {
        forall r | Ends(hot, flags, 2, r) ensures r.Some? && Minimised(hot, flags, r.value) {
          EveryOrderMinimises(hot, flags, flags, 2, r);
        }
      }
    } else {
      var i, j :| 0 <= i < j < |flags| && flags[i] == flags[j];
      var hot, r := RepeatedFlags(flags, i, j);
      assert !AlwaysMinimises(hot, flags);
    }
  }

  // ----- an endless round -----

  /** Flags among which one is given six times. */
  function Crowd(a: Flag, b: Flag, c: Flag): seq<Flag> {
    [b, a, a, a, a, a, a, c]
  }

  /** The candidates of a round on eight flags at granularity 2. */
  lemma {:induction false} HalfJobs(flags: seq<Flag>, job: Job)
    requires |flags| == 8 && job in Candidates(flags, 2)
    ensures var left, right := flags[..4], flags[4..];
            job.flags == left || job.flags == right || job.flags == Without(flags, left) || job.flags == Without(flags, right)
  {
    assert Slice(flags, 0, 4) == flags[..4] && Slice(flags, 4, 4) == flags[4..];
    var last := Tries(flags, 2, 4, 4);
    assert Tries(flags, 2, 4, 8) == [];
    assert last == [Job(Without(flags, flags[4..]), 2), Job(flags[4..], 2)];
    assert Candidates(flags, 2) == [Job(Without(flags, flags[..4]), 2), Job(flags[..4], 2)] + last;
  }

  lemma {:induction false} CrowdHalves(a: Flag, b: Flag, c: Flag, job: Job)
    requires a != b && a != c && job in Candidates(Crowd(a, b, c), 2)
    ensures FlagSet(job.flags) != {b, c}
  {
    var flags := Crowd(a, b, c);
    var left, right := flags[..4], flags[4..];
    HalfJobs(flags, job);
    WithoutMembers(flags, left);
    WithoutMembers(flags, right);
    assert left[0] == b && left[1] == a && right[0] == a && right[3] == c;
    assert a in job.flags || b !in job.flags || c !in job.flags;
    assert a in FlagSet(job.flags) || b !in FlagSet(job.flags) || c !in FlagSet(job.flags);
  }

  lemma {:induction false} SecondQuarter(flags: seq<Flag>)
    requires |flags| == 8
    ensures Job(Without(flags, flags[2..4]), 3) in Candidates(flags, 4)
  {
    var all := Candidates(flags, 4);
    assert Slice(flags, 2, 2) == flags[2..4];
    var tail := Tries(flags, 3, 2, 2);
    assert all == [Job(Without(flags, Slice(flags, 0, 2)), 3), Job(Slice(flags, 0, 2), 2)] + tail;
    assert all[2] == tail[0];
  }

  lemma {:induction false} CrowdWithout(a: Flag, b: Flag, c: Flag)
    requires a != b && a != c
    ensures Without(Crowd(a, b, c), [a, a]) == [b, c]
  {
    var six, two := [a, a, a, a, a, a], [a, a];
    assert Without(six + [c], two) == [c] by {
      WithoutAppend(six, [c], two);
      WithoutAll(six, two);
      WithoutOthers([c], two);
    }
    WithoutAppend([b], six + [c], two);
    WithoutOthers([b], two);
    assert Crowd(a, b, c) == [b] + (six + [c]);
  }

  lemma {:induction false} CrowdQuarter(a: Flag, b: Flag, c: Flag)
    requires a != b && a != c
    ensures Job([b, c], 3) in Candidates(Crowd(a, b, c), 4)
  {
    SecondQuarter(Crowd(a, b, c));
    CrowdWithout(a, b, c);
    assert Crowd(a, b, c)[2..4] == [a, a];
  }

  /** An oracle that is hot with `b` and `c` alone: a quarter of the list is dropped, and with it all six,
      so the next round asks for three slices of two flags. */
  lemma {:induction false} CrowdNeverEnds(a: Flag, b: Flag, c: Flag, hot: Oracle)
    requires a != b && a != c && forall l :: hot(l) <==> FlagSet(l) == {b, c}
    ensures Ends(hot, Crowd(a, b, c), 2, None)
  {
    var flags := Crowd(a, b, c);
    forall job | job in Candidates(flags, 2) ensures !hot(job.flags) {
      CrowdHalves(a, b, c, job);
    }
    NothingFound(hot, flags, 2, None);
    var job := Job([b, c], 3);
    CrowdQuarter(a, b, c);
    assert hot(job.flags);
    assert EndsBy(hot, flags, 4, job, None);
    assert Ends(hot, flags, 4, None);
  }

  /** The budgets still cover what may follow; kept for distinct flags. */
  ghost predicate Paid(n: nat, current: seq<Flag>, granularity: nat, calls: nat) {
    && calls + CubicBudget(|current|, granularity) <= CubicBudget(n, 2)
    && calls + QuadraticBudget(|current|, granularity) <= QuadraticBudget(n, 2)
  }

  /** `ddmin` with its oracle calls counted. */
  method Ddmin(hot: Oracle, initial: seq<Flag>) returns (current: seq<Flag>, calls: nat)
    ensures current == Minimise(hot, initial, 2)
    ensures Sublist(current, initial) && (current == initial || hot(current))
    ensures Distinct(initial) ==> Minimised(hot, initial, current) && WithinBounds(|initial|, calls)
  {
    current := initial;
    var granularity := 2;
    calls := 0;
    SublistOfItself(initial);
    ghost var n := |initial|;
    while |current| >= 2
      invariant Ready(hot, current, granularity) && Minimise(hot, current, granularity) == Minimise(hot, initial, 2)
      invariant Sublist(current, initial) && (current == initial || hot(current))
      invariant Distinct(initial) ==> Searching(hot, initial, current, granularity) && Paid(n, current, granularity, calls)
      decreases |current|, if granularity > |current| then |current| + granularity else |current| - granularity
    {
      var changed, next, newGranularity, used := Round(hot, current, granularity);
      if Distinct(initial) {
        CandidatesCount(current, granularity);
      }
      calls := calls + used;
      if changed {
        RoundProgress(hot, current, granularity);
        SublistTransitive(next, current, initial);
        if Distinct(initial) {
          StepShrinks(hot, initial, current, granularity, Job(next, newGranularity));
          BudgetOfMove(|current|, granularity, |next|, newGranularity);
        }
        current, granularity := next, newGranularity;
      } else {
        if Distinct(initial) {
          BudgetOfRefinement(|current|, granularity, used);
        }
        if granularity == |current| {
          break;
        }
        granularity := Min(granularity * 2, |current|);
      }
    }
    if Distinct(initial) {
      MinimiseMinimises(hot, initial, initial, 2);
      BudgetBounds(n, calls);
    }
  }

  // ----- the parallel search -----

  function Indices(n: nat): (r: set<nat>)
    ensures forall k: nat :: k in r <==> k < n
  {
    if n == 0 then {} else Indices(n - 1) + {n - 1}
  }

  /** One round of `ddmin_parallel`: every candidate is a running job. Jobs finish in any order; the
      first hot one to finish decides the round and cancels the rest. The round waits for the slice
      jobs (the odd indices) first, and for the complements only when nothing has been decided. */
  method ParallelRound(hot: Oracle, current: seq<Flag>, granularity: nat)
    returns (changed: bool, next: seq<Flag>, newGranularity: nat, started: nat)
    requires 2 <= granularity <= |current|
    ensures started == |Candidates(current, granularity)|
    ensures var all := Candidates(current, granularity);
            if changed
            then hot(next) && Job(next, newGranularity) in all
            else next == current && newGranularity == granularity && forall k :: 0 <= k < |all| ==> !hot(all[k].flags)
  {
    changed, next, newGranularity := false, current, granularity;
    var jobs := Candidates(current, granularity);
    started := |jobs|;
    var pending := Indices(|jobs|);
    var sliceJobs := set k | k in pending && k % 2 == 1;
    while pending * sliceJobs != {}
      invariant pending <= Indices(|jobs|)
      invariant if changed then pending == {} && hot(next) && Job(next, newGranularity) in jobs
                else next == current && newGranularity == granularity
                     && forall k :: 0 <= k < |jobs| && k !in pending ==> !hot(jobs[k].flags)
      decreases pending
    {
      var k :| k in pending;
      pending := pending - {k};
      if hot(jobs[k].flags) {
        next, newGranularity, changed := jobs[k].flags, jobs[k].granularity, true;
        pending := {};
      }
    }
    assert !changed ==> forall k :: 0 <= k < |jobs| && k % 2 == 1 ==> k !in pending;
    while !changed && pending != {}
      invariant pending <= Indices(|jobs|)
      invariant if changed then hot(next) && Job(next, newGranularity) in jobs
                else next == current && newGranularity == granularity
                     && forall k :: 0 <= k < |jobs| && k !in pending ==> !hot(jobs[k].flags)
      decreases pending
    {
      var k :| k in pending;
      pending := pending - {k};
      if hot(jobs[k].flags) {
        next, newGranularity, changed := jobs[k].flags, jobs[k].granularity, true;
        pending := {};
      }
    }
  }

  /** `ddmin_parallel` with the jobs it starts counted; `None` when a round starts jobs for ever. */
  method DdminParallel(hot: Oracle, initial: seq<Flag>) returns (result: Option<seq<Flag>>, started: nat)
    ensures Ends(hot, initial, 2, result)
    ensures result.Some? ==> Sublist(result.value, initial) && (result.value == initial || hot(result.value))
    ensures Distinct(initial) ==> result.Some? && Minimised(hot, initial, result.value) && WithinBounds(|initial|, started)
  {
    var current, granularity := initial, 2;
    started := 0;
    SublistOfItself(initial);
    ghost var n := |initial|;
    while |current| >= 2
      invariant granularity >= 2 && forall r :: Ends(hot, current, granularity, r) ==> Ends(hot, initial, 2, r)
      invariant Sublist(current, initial) && (current == initial || hot(current))
      invariant Distinct(initial) ==> Searching(hot, initial, current, granularity) && Paid(n, current, granularity, started)
      decreases |current|, |current| - granularity
    {
      if granularity > |current| {
        return None, started;
      }
      var changed, next, newGranularity, jobs := ParallelRound(hot, current, granularity);
      started := started + jobs;
      CandidatesCount(current, granularity);
      if changed {
        ghost var job := Job(next, newGranularity);
        CandidatesAreShorter(current, granularity, job);
        SublistTransitive(next, current, initial);
        assert forall r :: Ends(hot, next, newGranularity, r) ==> EndsBy(hot, current, granularity, job, r);
        if Distinct(initial) {
          StepShrinks(hot, initial, current, granularity, job);
          BudgetOfMove(|current|, granularity, |next|, newGranularity);
        }
        current, granularity := next, newGranularity;
      } else {
        BudgetOfRefinement(|current|, granularity, jobs);
        if granularity == |current| {
          break;
        }
        granularity := Min(granularity * 2, |current|);
      }
    }
    result := Some(current);
    assert Ends(hot, initial, 2, result);
    if Distinct(initial) {
      EveryOrderMinimises(hot, initial, initial, 2, result);
      BudgetBounds(n, started);
    }
  }
}
