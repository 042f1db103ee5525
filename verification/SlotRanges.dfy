/** Slot ownership rendered as ranges: for one node, and for the whole table. */
module SlotRanges {
  import opened Bytes

  /** An inclusive range of slots. */
  datatype Range = Range(lo: nat, hi: nat)

  /** A range of slots with one owner. */
  datatype Run<T> = Run(lo: nat, hi: nat, owner: T)

  type Owners<T> = seq<Option<T>>

  predicate Covers(r: Range, i: int) { r.lo <= i <= r.hi }

  ghost predicate InSome(rs: seq<Range>, i: int) { exists j :: 0 <= j < |rs| && Covers(rs[j], i) }

  /** Sorted, disjoint and maximal: no two ranges touch. */
  ghost predicate Separated(rs: seq<Range>) {
    && (forall j :: 0 <= j < |rs| ==> rs[j].lo <= rs[j].hi)
    && (forall j, k :: 0 <= j < k < |rs| ==> rs[j].hi + 1 < rs[k].lo)
  }

  /** The ranges are those of the slots a node owns, up to a slot. */
  ghost predicate RangesOf<T>(rs: seq<Range>, owners: Owners<T>, n: T) {
    && Separated(rs)
    && (forall j :: 0 <= j < |rs| ==> rs[j].hi < |owners|)
    && (forall i :: 0 <= i < |owners| ==> (owners[i] == Some(n) <==> InSome(rs, i)))
  }

  lemma RangesGrow<T>(rs: seq<Range>, owners: Owners<T>, n: T, o: Option<T>)
    requires RangesOf(rs, owners, n) && o != Some(n)
    ensures RangesOf(rs, owners + [o], n)
  {
  }

  /** A run that ends where the slots end becomes one more range. */
  lemma RangesClose<T>(rs: seq<Range>, owners: Owners<T>, n: T, start: nat)
    requires start < |owners| && RangesOf(rs, owners[..start], n)
    requires start > 0 ==> owners[start - 1] != Some(n)
    requires forall i :: start <= i < |owners| ==> owners[i] == Some(n)
    ensures RangesOf(rs + [Range(start, |owners| - 1)], owners, n)
  {
    var rs' := rs + [Range(start, |owners| - 1)];
    forall j | 0 <= j < |rs| ensures rs[j].hi + 1 < start {
      assert Covers(rs[j], rs[j].hi) && InSome(rs, rs[j].hi);
      assert owners[..start][rs[j].hi] == Some(n);
    }
    forall i | 0 <= i < |owners|
      ensures owners[i] == Some(n) <==> InSome(rs', i)
    {
      if i < start {
        assert owners[..start][i] == owners[i];
        assert forall j :: 0 <= j < |rs| ==> rs'[j] == rs[j];
        if owners[i] == Some(n) {
          var j :| 0 <= j < |rs| && Covers(rs[j], i);
          assert Covers(rs'[j], i);
        }
      } else {
        assert Covers(rs'[|rs|], i);
      }
    }
  }

  /** The ranges a node owns, by one pass over the table. */
  method OwnedSlots<T(==)>(owners: Owners<T>, n: T) returns (out: seq<Range>)
    ensures RangesOf(out, owners, n)
  {
    hide RangesOf;
    out := [];
    var start: int := -1;
    assert RangesOf(out, owners[..0], n) by { NoRanges(owners[..0], n); }
    for i := 0 to |owners|
      invariant start < 0 ==> RangesOf(out, owners[..i], n) && (i > 0 ==> owners[i - 1] != Some(n))
      invariant start >= 0 ==> OpenRun(out, owners[..i], n, start)
    {
      assert owners[..i + 1] == owners[..i] + [owners[i]];
      if owners[i] == Some(n) {
        if start < 0 {
          RunOpens(out, owners[..i], n, owners[i]);
          start := i;
        } else {
          RunGoesOn(out, owners[..i], n, start, owners[i]);
        }
      } else {
        if start >= 0 {
          RunCloses(out, owners[..i], n, start);
          out := out + [Range(start, i - 1)];
          start := -1;
        }
        RangesGrow(out, owners[..i], n, owners[i]);
      }
    }
    assert owners[..|owners|] == owners;
    if start >= 0 {
      RunCloses(out, owners, n, start);
      out := out + [Range(start, |owners| - 1)];
    }
  }

  /** A run of the node's slots has begun and reaches the last slot seen. */
  ghost predicate OpenRun<T>(rs: seq<Range>, owners: Owners<T>, n: T, start: int) {
    && 0 <= start < |owners|
    && RangesOf(rs, owners[..start], n)
    && (start > 0 ==> owners[start - 1] != Some(n))
    && forall i :: start <= i < |owners| ==> owners[i] == Some(n)
  }

  lemma NoRanges<T>(owners: Owners<T>, n: T)
    requires owners == []
    ensures RangesOf([], owners, n)
  {
  }

  lemma RunOpens<T>(rs: seq<Range>, owners: Owners<T>, n: T, o: Option<T>)
    requires RangesOf(rs, owners, n) && o == Some(n)
    requires |owners| > 0 ==> owners[|owners| - 1] != Some(n)
    ensures OpenRun(rs, owners + [o], n, |owners|)
  {
    hide RangesOf;
    assert (owners + [o])[..|owners|] == owners;
  }

  lemma RunGoesOn<T>(rs: seq<Range>, owners: Owners<T>, n: T, start: int, o: Option<T>)
    requires OpenRun(rs, owners, n, start) && o == Some(n)
    ensures OpenRun(rs, owners + [o], n, start)
  {
    hide RangesOf;
    assert (owners + [o])[..start] == owners[..start];
  }

  lemma RunCloses<T>(rs: seq<Range>, owners: Owners<T>, n: T, start: int)
    requires OpenRun(rs, owners, n, start)
    ensures RangesOf(rs + [Range(start, |owners| - 1)], owners, n)
  {
    hide RangesOf;
    RangesClose(rs, owners, n, start);
  }

  // ---- ranges are the maximal intervals --------------------------------------------------------

  /** An interval of slots with one owner that cannot be made longer at either end. */
  ghost predicate MaximalInterval<T>(owners: Owners<T>, n: T, lo: nat, hi: nat) {
    && lo <= hi < |owners|
    && (forall i :: lo <= i <= hi ==> owners[i] == Some(n))
    && (lo > 0 ==> owners[lo - 1] != Some(n))
    && (hi + 1 < |owners| ==> owners[hi + 1] != Some(n))
  }

  lemma OverlappingMaximal<T>(owners: Owners<T>, n: T, lo: nat, hi: nat, lo': nat, hi': nat)
    requires MaximalInterval(owners, n, lo, hi) && MaximalInterval(owners, n, lo', hi') && lo' <= lo <= hi'
    ensures lo == lo' && hi == hi'
  {
  }

  /** The ranges of a node are exactly the maximal intervals of its slots. */
  lemma RangesAreMaximal<T>(rs: seq<Range>, owners: Owners<T>, n: T, lo: nat, hi: nat)
    requires RangesOf(rs, owners, n)
    ensures Range(lo, hi) in rs <==> MaximalInterval(owners, n, lo, hi)
  {
    if Range(lo, hi) in rs {
      var j :| 0 <= j < |rs| && rs[j] == Range(lo, hi);
      RangeIsMaximal(rs, owners, n, j);
    }
    if MaximalInterval(owners, n, lo, hi) {
      assert InSome(rs, lo);
      var j :| 0 <= j < |rs| && Covers(rs[j], lo);
      RangeIsMaximal(rs, owners, n, j);
      OverlappingMaximal(owners, n, lo, hi, rs[j].lo, rs[j].hi);
    }
  }

  lemma RangeIsMaximal<T>(rs: seq<Range>, owners: Owners<T>, n: T, j: nat)
    requires RangesOf(rs, owners, n) && j < |rs|
    ensures MaximalInterval(owners, n, rs[j].lo, rs[j].hi)
  {
    forall i | rs[j].lo <= i <= rs[j].hi ensures owners[i] == Some(n) {
      assert Covers(rs[j], i) && InSome(rs, i);
    }
  }

  // ---- the runs of the whole table ------------------------------------------------------------------

  /** Sorted and disjoint runs, each of one owner, no two of one owner touching, every owned slot in
      one of them. */
  ghost predicate RunsOf<T>(rs: seq<Run<T>>, owners: Owners<T>) {
    && (forall j :: 0 <= j < |rs| ==> rs[j].lo <= rs[j].hi < |owners|)
    && (forall j, k :: 0 <= j < k < |rs| ==> rs[j].hi < rs[k].lo)
    && (forall j, k :: 0 <= j < k < |rs| && rs[j].owner == rs[k].owner ==> rs[j].hi + 1 < rs[k].lo)
    && (forall j, i :: 0 <= j < |rs| && rs[j].lo <= i <= rs[j].hi ==> owners[i] == Some(rs[j].owner))
    && (forall i :: 0 <= i < |owners| && owners[i].Some? ==> InRun(rs, i))
  }

  ghost predicate InRun<T>(rs: seq<Run<T>>, i: int) { exists j :: 0 <= j < |rs| && rs[j].lo <= i <= rs[j].hi }

  lemma RunsOverGap<T>(rs: seq<Run<T>>, owners: Owners<T>)
    requires RunsOf(rs, owners)
    ensures RunsOf(rs, owners + [None])
  {
  }

  lemma InRunOfMore<T>(rs: seq<Run<T>>, r: Run<T>, i: int)
    ensures InRun(rs + [r], i) <==> InRun(rs, i) || r.lo <= i <= r.hi
  {
    var rs' := rs + [r];
    assert rs'[|rs|] == r;
    if InRun(rs, i) {
      var j :| 0 <= j < |rs| && rs[j].lo <= i <= rs[j].hi;
      assert rs'[j] == rs[j];
    }
  }

  /** The last run takes in one more slot of its owner. */
  lemma RunsExtend<T>(rs: seq<Run<T>>, r: Run<T>, owners: Owners<T>)
    requires RunsOf(rs + [r], owners) && r.hi == |owners| - 1
    ensures RunsOf(rs + [r.(hi := |owners|)], owners + [Some(r.owner)])
  {
    var old', new', more := rs + [r], rs + [r.(hi := |owners|)], owners + [Some(r.owner)];
    assert old'[|rs|] == r;
    assert forall j :: 0 <= j < |rs| ==> new'[j] == old'[j];
    forall i | 0 <= i < |more| && more[i].Some? ensures InRun(new', i) {
      if i < |owners| { assert owners[i] == more[i] && InRun(old', i); }
      InRunOfMore(rs, r, i);
      InRunOfMore(rs, r.(hi := |owners|), i);
    }
  }

  /** A slot of another owner starts a new run. */
  lemma RunsStart<T>(rs: seq<Run<T>>, owners: Owners<T>, n: T)
    requires RunsOf(rs, owners)
    requires |rs| > 0 && rs[|rs| - 1].hi == |owners| - 1 ==> rs[|rs| - 1].owner != n
    ensures RunsOf(rs + [Run(|owners|, |owners|, n)], owners + [Some(n)])
  {
    var new', more := rs + [Run(|owners|, |owners|, n)], owners + [Some(n)];
    forall i | 0 <= i < |more| && more[i].Some? ensures InRun(new', i) {
      InRunOfMore(rs, Run(|owners|, |owners|, n), i);
    }
    forall j | 0 <= j < |rs| && rs[j].owner == n ensures rs[j].hi + 1 < |owners| {
      if j < |rs| - 1 { assert rs[j].hi < rs[|rs| - 1].lo; }
    }
  }

  /** The runs of the table, by one pass. */
  method SlotRuns<T(==)>(owners: Owners<T>) returns (runs: seq<Run<T>>)
    ensures RunsOf(runs, owners)
  {
    hide RunsOf;
    runs := [];
    var cur: Option<Run<T>> := None;
    assert RunsOf(runs, owners[..0]) by { NoRuns(owners[..0]); }
    for i := 0 to |owners|
      invariant cur.Some? ==> RunsOf(runs + [cur.value], owners[..i]) && cur.value.hi == i - 1
      invariant cur.None? ==> RunsOf(runs, owners[..i]) && (i > 0 ==> owners[i - 1].None?)
    {
      var owner := owners[i];
      assert owners[..i + 1] == owners[..i] + [owner];
      if cur.Some? && owner == Some(cur.value.owner) {
        RunsExtend(runs, cur.value, owners[..i]);
        cur := Some(cur.value.(hi := i));
      } else {
        if cur.Some? {
          runs := runs + [cur.value];
          cur := None;
        }
        if owner.Some? {
          LastRunEnds(runs, owners[..i]);
          RunsStart(runs, owners[..i], owner.value);
          cur := Some(Run(i, i, owner.value));
        } else {
          RunsOverGap(runs, owners[..i]);
        }
      }
    }
    assert owners[..|owners|] == owners;
    if cur.Some? { runs := runs + [cur.value]; }
  }

  lemma NoRuns<T>(owners: Owners<T>)
    requires owners == []
    ensures RunsOf([], owners)
  {
  }

  lemma LastRunEnds<T>(rs: seq<Run<T>>, owners: Owners<T>)
    requires RunsOf(rs, owners)
    ensures |rs| > 0 && rs[|rs| - 1].hi == |owners| - 1 ==> owners[|owners| - 1] == Some(rs[|rs| - 1].owner)
  {
  }

  lemma NeighbourDiffers<T>(rs: seq<Run<T>>, owners: Owners<T>, j: nat, i: nat)
    requires RunsOf(rs, owners) && j < |rs| && i < |owners| && (i == rs[j].lo - 1 || i == rs[j].hi + 1)
    ensures owners[i] != Some(rs[j].owner)
  {
    if owners[i].Some? {
      assert InRun(rs, i);
      var k :| 0 <= k < |rs| && rs[k].lo <= i <= rs[k].hi;
      assert owners[i] == Some(rs[k].owner);
    }
  }

  lemma RunIsMaximal<T>(rs: seq<Run<T>>, owners: Owners<T>, j: nat)
    requires RunsOf(rs, owners) && j < |rs|
    ensures MaximalInterval(owners, rs[j].owner, rs[j].lo, rs[j].hi)
  {
    if rs[j].lo > 0 { NeighbourDiffers(rs, owners, j, rs[j].lo - 1); }
    if rs[j].hi + 1 < |owners| { NeighbourDiffers(rs, owners, j, rs[j].hi + 1); }
  }

  /** The runs of the table are exactly the maximal intervals of every owner. */
  lemma RunsAreMaximal<T>(rs: seq<Run<T>>, owners: Owners<T>, n: T, lo: nat, hi: nat)
    requires RunsOf(rs, owners)
    ensures Run(lo, hi, n) in rs <==> MaximalInterval(owners, n, lo, hi)
  {
    if Run(lo, hi, n) in rs {
      var j :| 0 <= j < |rs| && rs[j] == Run(lo, hi, n);
      RunIsMaximal(rs, owners, j);
    }
    if MaximalInterval(owners, n, lo, hi) {
      assert InRun(rs, lo);
      var j :| 0 <= j < |rs| && rs[j].lo <= lo <= rs[j].hi;
      RunIsMaximal(rs, owners, j);
      OverlappingMaximal(owners, n, lo, hi, rs[j].lo, rs[j].hi);
    }
  }

  /** The two renderings agree: a node's ranges are the table's runs of that node. */
  lemma RenderingsAgree<T>(ranges: seq<Range>, runs: seq<Run<T>>, owners: Owners<T>, n: T, r: Range)
    requires RangesOf(ranges, owners, n) && RunsOf(runs, owners)
    ensures r in ranges <==> Run(r.lo, r.hi, n) in runs
  {
    RangesAreMaximal(ranges, owners, n, r.lo, r.hi);
    RunsAreMaximal(runs, owners, n, r.lo, r.hi);
  }
}
