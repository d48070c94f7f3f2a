/** The key scheduler: where a run starts to generate keys, and what repeated runs cover. */
module Keyup {
  /** Times and durations in 64 bits. */
  type Time = t: nat | t <= 0xFFFF_FFFF_FFFF_FFFF

  /** The end of time; additions stop there and subtractions leave it alone. */
  const FOREVER: Time := 0xFFFF_FFFF_FFFF_FFFF

  function Add(t: Time, d: Time): Time { if t + d >= FOREVER then FOREVER else t + d }

  function Subtract(t: Time, d: Time): Time {
    if t <= d then 0 else if t == FOREVER then FOREVER else t - d
  }

  /** A key is valid for `duration`, and the next one starts `overlap` before its end. */
  datatype Params = Params(duration: Time, overlap: Time)

  /** A file in the key directory: a key named after its start time, or something else. */
  datatype File = Key(start: Time) | Junk

  datatype Directory = Missing | Present(files: seq<File>)

  /** The latest start time found, zero if there is none. */
  function Latest(files: seq<File>): Time {
    if files == [] then 0
    else
      var last, before := files[|files| - 1], Latest(files[..|files| - 1]);
      if last.Key? && last.start > before then last.start else before
  }

  function Anchor(p: Params, dir: Directory, now: Time): Time {
    if dir.Missing? then now
    else
      var latest := Latest(dir.files);
      if Add(latest, p.duration) < now then now
      else if latest != now then Subtract(Add(latest, p.duration), p.overlap)
      else latest
  }

  function Next(p: Params, anchor: Time): Time { Subtract(Add(anchor, p.duration), p.overlap) }

  lemma {:induction false} NextAdvances(p: Params, anchor: Time)
    requires p.overlap < p.duration && anchor < FOREVER
    ensures anchor < Next(p, anchor) <= Add(anchor, p.duration)
  {
  }

  function Write(files: seq<File>, start: Time): seq<File> {
    if Key(start) in files then files else files + [Key(start)]
  }

  /** The files after generating keys from an anchor up to, but not including, the lookahead. */
  function Generate(p: Params, files: seq<File>, anchor: Time, lookahead: Time): seq<File>
    requires p.overlap < p.duration
    decreases lookahead - anchor
  {
    if anchor >= lookahead then files
    else
      NextAdvances(p, anchor);
      Generate(p, Write(files, anchor), Next(p, anchor), lookahead)
  }

  function Update(p: Params, dir: Directory, now: Time, lookahead: Time): Directory
    requires p.overlap < p.duration
  {
    Present(Generate(p, if dir.Missing? then [] else dir.files, Anchor(p, dir, now), lookahead))
  }

  class KeyStore {
    const p: Params
    var dir: Directory

    constructor (p: Params, dir: Directory)
      ensures this.p == p && this.dir == dir
    {
      this.p, this.dir := p, dir;
    }

    /** The timestamp at which the first new key is generated. */
    method GetAnchor(now: Time) returns (anchor: Time)
      ensures anchor == Anchor(p, dir, now)
    {
      if dir.Missing? {
        return now;
      }
      anchor := 0;
      for i := 0 to |dir.files|
        invariant anchor == Latest(dir.files[..i])
      {
        assert dir.files[..i + 1][..i] == dir.files[..i];
        if dir.files[i].Key? && dir.files[i].start > anchor {
          anchor := dir.files[i].start;
        }
      }
      assert dir.files[..|dir.files|] == dir.files;
      if Add(anchor, p.duration) < now {
        anchor := now;
      } else if anchor != now {
        anchor := Subtract(Add(anchor, p.duration), p.overlap);
      }
    }

    /** One run for one type of key. */
    method UpdateKeys(now: Time, lookahead: Time)
      requires p.overlap < p.duration
      modifies this`dir
      ensures dir == Update(p, old(dir), now, lookahead)
    {
      var anchor: Time := GetAnchor(now);
      if dir.Missing? {
        dir := Present([]);
      }
      while anchor < lookahead
        invariant dir.Present?
        invariant Update(p, old(dir), now, lookahead) == Present(Generate(p, dir.files, anchor, lookahead))
        decreases lookahead - anchor
      {
        dir := Present(Write(dir.files, anchor));
        NextAdvances(p, anchor);
        anchor := Subtract(Add(anchor, p.duration), p.overlap);
      }
    }
  }

  // ----- coverage -----

  predicate Covered(p: Params, files: seq<File>, t: Time) {
    exists f | f in files :: f.Key? && f.start <= t < Add(f.start, p.duration)
  }

  /** Every instant from `from` to the end of the latest key lies in some key's window. */
  ghost predicate Seamless(p: Params, files: seq<File>, from: Time) {
    forall t | from <= t < Add(Latest(files), p.duration) :: Covered(p, files, t)
  }

  predicate HasKey(files: seq<File>) { exists f | f in files :: f.Key? }

  lemma {:induction false} LatestMeaning(files: seq<File>)
    ensures forall f | f in files && f.Key? :: f.start <= Latest(files)
    ensures HasKey(files) ==> Key(Latest(files)) in files
    ensures !HasKey(files) ==> Latest(files) == 0
  {
    if files != [] {
      var n := |files| - 1;
      assert files == files[..n] + [files[n]];
      LatestMeaning(files[..n]);
      if files[n].Key? {
        assert HasKey(files);
        if !HasKey(files[..n]) {
          assert Latest(files[..n]) == 0;
        }
      } else if HasKey(files) {
        assert HasKey(files[..n]);
      }
    }
  }

  lemma {:induction false} WriteLatest(files: seq<File>, start: Time)
    requires Latest(files) <= start
    ensures Latest(Write(files, start)) == start && HasKey(Write(files, start))
    ensures forall f :: f in Write(files, start) <==> f in files || f == Key(start)
  {
    LatestMeaning(files);
    if Key(start) !in files {
      assert (files + [Key(start)])[..|files|] == files;
    }
    assert Key(start) in Write(files, start);
  }

  /** Generating from an anchor that leaves no gap closes everything up to the lookahead. */
  lemma {:induction false} GenerateCovers(p: Params, files: seq<File>, from: Time, anchor: Time, lookahead: Time)
    requires p.overlap < p.duration && Latest(files) <= anchor
    requires forall t | from <= t < anchor :: Covered(p, files, t)
    ensures var g := Generate(p, files, anchor, lookahead);
      && (forall t | from <= t < lookahead :: Covered(p, g, t))
      && (forall f | f in files :: f in g)
      && (anchor < lookahead ==> HasKey(g) && Seamless(p, g, from))
    decreases lookahead - anchor
  {
    if anchor < lookahead {
      var more := Write(files, anchor);
      WriteLatest(files, anchor);
      NextAdvances(p, anchor);
      forall t | from <= t < Add(anchor, p.duration) ensures Covered(p, more, t) {
        if t < anchor {
          assert Covered(p, files, t);
          var f :| f in files && f.Key? && f.start <= t < Add(f.start, p.duration);
          assert f in more;
        } else {
          assert Key(anchor) in more;
        }
      }
      GenerateCovers(p, more, from, Next(p, anchor), lookahead);
    }
  }

  /** What every run keeps: once there is a key, there is no gap from the last run's time on. */
  ghost predicate Kept(p: Params, dir: Directory, last: Time) {
    dir.Present? && HasKey(dir.files) ==> Seamless(p, dir.files, last)
  }

  /** The one case that leaves a gap: a directory without keys, soon after the beginning of time. */
  predicate LeavesGap(p: Params, dir: Directory, now: Time, lookahead: Time) {
    dir.Present? && !HasKey(dir.files) && 0 < now < Next(p, 0) && now < lookahead
  }

  ghost predicate CoversFrom(p: Params, dir: Directory, now: Time, lookahead: Time) {
    dir.Present? && forall t | now <= t < lookahead :: Covered(p, dir.files, t)
  }

  lemma {:induction false} UpdateWithKeys(p: Params, files: seq<File>, last: Time, now: Time, lookahead: Time)
    requires p.overlap < p.duration && last <= now
    requires HasKey(files) && Seamless(p, files, last)
    ensures var dir := Update(p, Present(files), now, lookahead);
      CoversFrom(p, dir, now, lookahead) && HasKey(dir.files) && Seamless(p, dir.files, now)
  {
    var latest, anchor := Latest(files), Anchor(p, Present(files), now);
    LatestMeaning(files);
    assert latest <= anchor;
    GenerateCovers(p, files, now, anchor, lookahead);
    if anchor >= lookahead {
      assert Generate(p, files, anchor, lookahead) == files;
    }
  }

  lemma {:induction false} UpdateWithoutKeys(p: Params, dir: Directory, now: Time, lookahead: Time)
    requires p.overlap < p.duration && now < FOREVER
    requires dir.Present? ==> !HasKey(dir.files)
    ensures var after := Update(p, dir, now, lookahead);
      && (CoversFrom(p, after, now, lookahead) <==> !LeavesGap(p, dir, now, lookahead))
      && (HasKey(after.files) && !LeavesGap(p, dir, now, lookahead) ==> Seamless(p, after.files, now))
  {
    var files := if dir.Missing? then [] else dir.files;
    var anchor := Anchor(p, dir, now);
    LatestMeaning(files);
    if anchor <= now {
      GenerateCovers(p, files, now, anchor, lookahead);
    } else {
      assert anchor == Next(p, 0);
      GenerateStartsAt(p, files, anchor, lookahead);
      var after := Update(p, dir, now, lookahead);
      assert forall f | f in after.files && f.Key? :: f.start > now;
      assert !Covered(p, after.files, now);
    }
  }

  /** No generated key starts before the anchor. */
  lemma {:induction false} GenerateStartsAt(p: Params, files: seq<File>, anchor: Time, lookahead: Time)
    requires p.overlap < p.duration
    ensures forall f | f in Generate(p, files, anchor, lookahead) && f.Key? :: f in files || f.start >= anchor
    decreases lookahead - anchor
  {
    if anchor < lookahead {
      NextAdvances(p, anchor);
      GenerateStartsAt(p, Write(files, anchor), Next(p, anchor), lookahead);
    }
  }

  // ----- any sequence of runs -----

  datatype Run = Run(now: Time, lookahead: Time)

  function UpdateAll(p: Params, dir: Directory, runs: seq<Run>): Directory
    requires p.overlap < p.duration
  {
    if runs == [] then dir
    else
      var n := |runs| - 1;
      Update(p, UpdateAll(p, dir, runs[..n]), runs[n].now, runs[n].lookahead)
  }

  predicate InOrder(runs: seq<Run>) {
    && (forall i | 0 <= i < |runs| :: runs[i].now < FOREVER)
    && forall i, j | 0 <= i < j < |runs| :: runs[i].now <= runs[j].now
  }

  /** No run finds the directory in the state that leaves a gap. */
  predicate NeverLeavesGap(p: Params, dir: Directory, runs: seq<Run>)
    requires p.overlap < p.duration
  {
    forall n | 0 <= n < |runs| :: !GapIn(p, dir, runs, n)
  }

  predicate GapIn(p: Params, dir: Directory, runs: seq<Run>, n: nat)
    requires p.overlap < p.duration && n < |runs|
  {
    LeavesGap(p, UpdateAll(p, dir, runs[..n]), runs[n].now, runs[n].lookahead)
  }

  lemma {:induction false} RunKeeps(p: Params, dir: Directory, last: Time, run: Run)
    requires p.overlap < p.duration && last <= run.now < FOREVER && Kept(p, dir, last)
    ensures CoversFrom(p, Update(p, dir, run.now, run.lookahead), run.now, run.lookahead)
      <==> !LeavesGap(p, dir, run.now, run.lookahead)
    ensures !LeavesGap(p, dir, run.now, run.lookahead)
      ==> Kept(p, Update(p, dir, run.now, run.lookahead), run.now)
  {
    if dir.Present? && HasKey(dir.files) {
      UpdateWithKeys(p, dir.files, last, run.now, run.lookahead);
    } else {
      UpdateWithoutKeys(p, dir, run.now, run.lookahead);
    }
  }

  lemma {:induction false} RunsKeep(p: Params, dir: Directory, runs: seq<Run>)
    requires p.overlap < p.duration && InOrder(runs) && NeverLeavesGap(p, dir, runs)
    requires dir.Present? ==> !HasKey(dir.files)
    ensures Kept(p, UpdateAll(p, dir, runs), if runs == [] then 0 else runs[|runs| - 1].now)
  {
    if runs != [] {
      var n := |runs| - 1;
      PrefixLeavesNoGap(p, dir, runs, n);
      RunsKeep(p, dir, runs[..n]);
      assert !GapIn(p, dir, runs, n);
      assert runs[..n] != [] ==> runs[..n][n - 1].now <= runs[n].now;
      RunKeeps(p, UpdateAll(p, dir, runs[..n]), if n == 0 then 0 else runs[n - 1].now, runs[n]);
    }
  }

  lemma {:induction false} PrefixLeavesNoGap(p: Params, dir: Directory, runs: seq<Run>, n: nat)
    requires p.overlap < p.duration && n <= |runs|
    requires forall k | 0 <= k < n :: !GapIn(p, dir, runs, k)
    ensures NeverLeavesGap(p, dir, runs[..n])
  {
    forall k | 0 <= k < n
      ensures !GapIn(p, dir, runs[..n], k)
    {
      assert !GapIn(p, dir, runs, k);
      assert runs[..n][..k] == runs[..k];
    }
  }

  /**
   * Gap-free coverage.  Starting without keys and running any number of times, the clock never
   * going back, every run ends with each instant from its time to its lookahead inside some
   * key's window -- exactly as long as no run finds a directory without keys before the second
   * key counted from time zero would start.
   */
  lemma {:induction false} GapFreeExactly(p: Params, dir: Directory, runs: seq<Run>)
    requires p.overlap < p.duration && InOrder(runs)
    requires dir.Present? ==> !HasKey(dir.files)
    ensures NeverLeavesGap(p, dir, runs) <==>
      forall n | 0 <= n < |runs| :: CoversFrom(p, UpdateAll(p, dir, runs[..n + 1]), runs[n].now, runs[n].lookahead)
  {
    if NeverLeavesGap(p, dir, runs) {
      forall n | 0 <= n < |runs|
        ensures CoversFrom(p, UpdateAll(p, dir, runs[..n + 1]), runs[n].now, runs[n].lookahead)
      {
        GapAt(p, dir, runs, n);
      }
    } else {
      var found :| 0 <= found < |runs| && GapIn(p, dir, runs, found);
      var n := FirstGap(p, dir, runs, found);
      GapAt(p, dir, runs, n);
    }
  }

  lemma {:induction false} FirstGap(p: Params, dir: Directory, runs: seq<Run>, bound: nat) returns (n: nat)
    requires p.overlap < p.duration && bound < |runs| && GapIn(p, dir, runs, bound)
    ensures n < |runs| && GapIn(p, dir, runs, n) && forall k | 0 <= k < n :: !GapIn(p, dir, runs, k)
  {
    if k: nat :| k < bound && GapIn(p, dir, runs, k) {
      n := FirstGap(p, dir, runs, k);
    } else {
      n := bound;
    }
  }

  lemma {:induction false} GapAt(p: Params, dir: Directory, runs: seq<Run>, n: nat)
    requires p.overlap < p.duration && InOrder(runs) && n < |runs|
    requires dir.Present? ==> !HasKey(dir.files)
    requires forall k | 0 <= k < n :: !GapIn(p, dir, runs, k)
    ensures CoversFrom(p, UpdateAll(p, dir, runs[..n + 1]), runs[n].now, runs[n].lookahead)
      <==> !GapIn(p, dir, runs, n)
  {
    PrefixLeavesNoGap(p, dir, runs, n);
    RunsKeep(p, dir, runs[..n]);
    assert runs[..n + 1][..n] == runs[..n];
    RunKeeps(p, UpdateAll(p, dir, runs[..n]), if n == 0 then 0 else runs[n - 1].now, runs[n]);
  }

  /** A clock past the start of the second key counted from time zero is always enough. */
  lemma {:induction false} LateClockNeverLeavesGap(p: Params, dir: Directory, runs: seq<Run>)
    requires p.overlap < p.duration
    requires forall n | 0 <= n < |runs| :: Next(p, 0) <= runs[n].now
    ensures NeverLeavesGap(p, dir, runs)
  {
  }

  // ----- keys that exist already -----

  /** The start times at which a run writes a key. */
  function Written(p: Params, anchor: Time, lookahead: Time): set<Time>
    requires p.overlap < p.duration
    decreases lookahead - anchor
  {
    if anchor >= lookahead then {}
    else
      NextAdvances(p, anchor);
      {anchor} + Written(p, Next(p, anchor), lookahead)
  }

  lemma {:induction false} WrittenFrom(p: Params, anchor: Time, lookahead: Time)
    requires p.overlap < p.duration
    ensures forall t | t in Written(p, anchor, lookahead) :: anchor <= t < lookahead
    ensures anchor in Written(p, anchor, lookahead) <==> anchor < lookahead
    decreases lookahead - anchor
  {
    if anchor < lookahead {
      NextAdvances(p, anchor);
      WrittenFrom(p, Next(p, anchor), lookahead);
    }
  }

  lemma {:induction false} GenerateWrites(p: Params, files: seq<File>, anchor: Time, lookahead: Time)
    requires p.overlap < p.duration
    ensures forall f ::
      f in Generate(p, files, anchor, lookahead) <==>
      f in files || (f.Key? && f.start in Written(p, anchor, lookahead))
    decreases lookahead - anchor
  {
    if anchor < lookahead {
      NextAdvances(p, anchor);
      GenerateWrites(p, Write(files, anchor), Next(p, anchor), lookahead);
    }
  }

  /** `k` is where the latest key starts; zero if there is no key. */
  predicate LastKey(files: seq<File>, k: Time) {
    if exists f | f in files :: f.Key? then
      Key(k) in files && forall f | f in files && f.Key? :: f.start <= k
    else k == 0
  }

  /**
   * Where a run starts to write keys.  If the latest key ended before now, the keys that were missed
   * are not made up for: the first one starts now.  Otherwise the first one starts an overlap before
   * the end of the latest, or with it, if that starts now; and none at all if the latest never ends.
   */
  lemma {:induction false} FirstKeyExactly(p: Params, files: seq<File>, k: Time, now: Time, lookahead: Time)
    requires p.overlap < p.duration && LastKey(files, k)
    ensures var first :=
        if k + p.duration < now || k == now then now else k + p.duration - p.overlap;
      var written := Written(p, Anchor(p, Present(files), now), lookahead);
      && (forall f :: f in Update(p, Present(files), now, lookahead).files
            <==> f in files || (f.Key? && f.start in written))
      && if k + p.duration >= FOREVER && k != now then written == {}
         else (forall t | t in written :: first <= t < lookahead) && (first < lookahead <==> first in written)
  {
    LatestMeaning(files);
    assert Latest(files) == k;
    var anchor := Anchor(p, Present(files), now);
    GenerateWrites(p, files, anchor, lookahead);
    WrittenFrom(p, anchor, lookahead);
  }

  /** A run in a missing directory starts now. */
  lemma {:induction false} FirstKeyEver(p: Params, now: Time, lookahead: Time)
    requires p.overlap < p.duration
    ensures var written := Written(p, Anchor(p, Missing, now), lookahead);
      && (forall f :: f in Update(p, Missing, now, lookahead).files <==> f.Key? && f.start in written)
      && (forall t | t in written :: now <= t < lookahead) && (now < lookahead <==> now in written)
  {
    GenerateWrites(p, [], now, lookahead);
    WrittenFrom(p, now, lookahead);
  }

  /** Each key that a run writes is followed by one that starts an overlap before its end, and none in between. */
  lemma {:induction false} SpacedExactly(p: Params, anchor: Time, lookahead: Time, t: Time)
    requires p.overlap < p.duration && t in Written(p, anchor, lookahead)
    ensures forall u | u in Written(p, anchor, lookahead) :: u <= t || u >= t + p.duration - p.overlap
    ensures t + p.duration < FOREVER ==>
      (t + p.duration - p.overlap in Written(p, anchor, lookahead) <==> t + p.duration - p.overlap < lookahead)
    decreases lookahead - anchor
  {
    NextAdvances(p, anchor);
    WrittenFrom(p, anchor, lookahead);
    WrittenFrom(p, Next(p, anchor), lookahead);
    if t != anchor {
      SpacedExactly(p, Next(p, anchor), lookahead, t);
    }
  }

  /** A run overwrites a key that exists exactly when the latest key starts at this very instant. */
  lemma {:induction false} OverwritesExactly(p: Params, files: seq<File>, now: Time, lookahead: Time)
    requires p.overlap < p.duration && HasKey(files) && now < FOREVER && Latest(files) < FOREVER
    ensures var written := Written(p, Anchor(p, Present(files), now), lookahead);
      && (forall f :: f in Update(p, Present(files), now, lookahead).files
            <==> f in files || (f.Key? && f.start in written))
      && ((exists t | t in written :: Key(t) in files) <==> Latest(files) == now && now < lookahead)
  {
    var anchor := Anchor(p, Present(files), now);
    LatestMeaning(files);
    GenerateWrites(p, files, anchor, lookahead);
    WrittenFrom(p, anchor, lookahead);
    NextAdvances(p, Latest(files));
    if Latest(files) == now && now < lookahead {
      assert now in Written(p, anchor, lookahead) && Key(now) in files;
    } else if anchor > Latest(files) {
      assert forall f | f in files && f.Key? :: f.start < anchor;
    }
  }
}
