/** The streamer's sorted vector of entries: binary-search positions, insertion and pruning. */
module SortedQueue {
  import opened Messages

  predicate Ascending(q: seq<Entry>) {
    forall i, j :: 0 <= i < j < |q| ==> q[i].Seq() < q[j].Seq()
  }

  /** `partition_point(|e| e.sequence_number() < s)`. */
  function Below(q: seq<Entry>, s: nat): (n: nat)
    ensures n <= |q|
  {
    if q == [] || s <= q[0].Seq() then 0 else Below(q[1..], s) + 1
  }

  lemma {:induction false} BelowSpec(q: seq<Entry>, s: nat)
    ensures forall i :: 0 <= i < Below(q, s) ==> q[i].Seq() < s
    ensures Below(q, s) < |q| ==> s <= q[Below(q, s)].Seq()
  {
    if q != [] && q[0].Seq() < s {
      BelowSpec(q[1..], s);
      assert forall i :: 0 < i < |q| ==> q[i] == q[1..][i - 1];
    }
  }

  function Insert(q: seq<Entry>, e: Entry): seq<Entry> {
    var p := Below(q, e.Seq());
    q[..p] + [e] + q[p..]
  }

  predicate Holds(q: seq<Entry>, s: nat) {
    exists e :: e in q && e.Seq() == s
  }

  /** In a sorted queue one sequence number names one entry. */
  lemma UniqueEntry(q: seq<Entry>, a: Entry, b: Entry)
    requires Ascending(q)
    requires a in q && b in q && a.Seq() == b.Seq()
    ensures a == b
  {
    var i :| 0 <= i < |q| && q[i] == a;
    var j :| 0 <= j < |q| && q[j] == b;
  }

  /** The binary search finds a sequence number exactly when some entry has it. */
  lemma BelowFinds(q: seq<Entry>, s: nat)
    requires Ascending(q)
    ensures var p := Below(q, s); Holds(q, s) <==> p < |q| && q[p].Seq() == s
  {
    var p := Below(q, s);
    BelowSpec(q, s);
    if e :| e in q && e.Seq() == s {
      var i :| 0 <= i < |q| && q[i] == e;
      if p < i { assert false; }
    }
  }

  /** A slot with smaller numbers before it and no smaller number at it is the partition point. */
  lemma BelowUnique(q: seq<Entry>, s: nat, n: nat)
    requires Ascending(q) && n <= |q|
    requires n > 0 ==> q[n - 1].Seq() < s
    requires n < |q| ==> s <= q[n].Seq()
    ensures Below(q, s) == n
  {
    BelowSpec(q, s);
    if Below(q, s) != n { assert false; }
  }

  lemma InsertSorted(q: seq<Entry>, e: Entry)
    requires Ascending(q)
    requires !Holds(q, e.Seq())
    ensures var r := Insert(q, e);
      && Ascending(r)
      && |r| == |q| + 1
      && (forall x :: x in r <==> x == e || x in q)
  {
    var p, r := Below(q, e.Seq()), Insert(q, e);
    BelowFinds(q, e.Seq());
    BelowSpec(q, e.Seq());
    forall i, j | 0 <= i < j < |r| ensures r[i].Seq() < r[j].Seq() {
      assert p < |q| ==> e.Seq() < q[p].Seq();
    }
    assert q == q[..p] + q[p..];
  }

  lemma InsertMembers(q: seq<Entry>, e: Entry, x: Entry)
    ensures x in Insert(q, e) <==> x == e || x in q
  {
    var p := Below(q, e.Seq());
    assert q == q[..p] + q[p..];
  }

  /** A sequence number above all others goes to the end. */
  lemma InsertAtEnd(q: seq<Entry>, e: Entry)
    requires forall i :: 0 <= i < |q| ==> q[i].Seq() < e.Seq()
    ensures Insert(q, e) == q + [e]
  {
    BelowSpec(q, e.Seq());
    assert Below(q, e.Seq()) == |q|;
  }

  /** The queue as a map from sequence number to HotShot height. */
  ghost function HeightMap(q: seq<Entry>): map<nat, nat> {
    if q == [] then map[]
    else HeightMap(q[..|q| - 1])[q[|q| - 1].Seq() := q[|q| - 1].hotshotHeight]
  }

  lemma {:induction false} HeightMapConcat(a: seq<Entry>, b: seq<Entry>)
    ensures HeightMap(a + b) == HeightMap(a) + HeightMap(b)
  {
    if b == [] {
      assert a + b == a;
    } else {
      assert (a + b)[..|a + b| - 1] == a + b[..|b| - 1];
      HeightMapConcat(a, b[..|b| - 1]);
    }
  }

  lemma {:induction false} HeightMapKeys(q: seq<Entry>, s: nat)
    ensures s in HeightMap(q) <==> Holds(q, s)
  {
    if q != [] {
      var init, last := q[..|q| - 1], q[|q| - 1];
      HeightMapKeys(init, s);
      assert q == init + [last];
      assert Holds(q, s) <==> Holds(init, s) || last.Seq() == s by {
        assert last in q;
        if e :| e in init && e.Seq() == s { assert e in q; }
        if e :| e in q && e.Seq() == s { assert e in init || e == last; }
      }
    }
  }

  lemma {:induction false} HeightMapValue(q: seq<Entry>, i: nat)
    requires Ascending(q) && i < |q|
    ensures q[i].Seq() in HeightMap(q) && HeightMap(q)[q[i].Seq()] == q[i].hotshotHeight
  {
    if i < |q| - 1 {
      HeightMapValue(q[..|q| - 1], i);
    }
  }

  /** The last entry of a sorted queue is in no other slot. */
  lemma HeightMapLast(q: seq<Entry>)
    requires Ascending(q) && q != []
    ensures Ascending(q[..|q| - 1])
    ensures q[|q| - 1].Seq() !in HeightMap(q[..|q| - 1])
  {
    HeightMapKeys(q[..|q| - 1], q[|q| - 1].Seq());
  }

  lemma {:induction false} HeightMapSize(q: seq<Entry>)
    requires Ascending(q)
    ensures |HeightMap(q)| == |q|
  {
    if q != [] {
      var init, last := q[..|q| - 1], q[|q| - 1];
      HeightMapSize(init);
      HeightMapLast(q);
    }
  }

  lemma HeightMapMiddle(lo: seq<Entry>, e: Entry, hi: seq<Entry>)
    requires e.Seq() !in HeightMap(hi)
    ensures HeightMap(lo + [e] + hi) == HeightMap(lo + hi)[e.Seq() := e.hotshotHeight]
  {
    HeightMapConcat(lo, hi);
    HeightMapConcat(lo + [e], hi);
    assert (lo + [e])[..|lo|] == lo;
    UpdateMerge(HeightMap(lo), HeightMap(hi), e.Seq(), e.hotshotHeight);
  }

  lemma UpdateMerge(a: map<nat, nat>, b: map<nat, nat>, k: nat, v: nat)
    requires k !in b
    ensures a[k := v] + b == (a + b)[k := v]
  {
  }

  lemma HeightMapInsert(q: seq<Entry>, e: Entry)
    requires Ascending(q) && !Holds(q, e.Seq())
    ensures HeightMap(Insert(q, e)) == HeightMap(q)[e.Seq() := e.hotshotHeight]
  {
    var p := Below(q, e.Seq());
    assert q == q[..p] + q[p..];
    assert e.Seq() !in HeightMap(q[p..]) by {
      HeightMapKeys(q[p..], e.Seq());
    }
    HeightMapMiddle(q[..p], e, q[p..]);
  }

  lemma {:induction false} HeightMapBelow(q: seq<Entry>, s: nat)
    requires forall i :: 0 <= i < |q| ==> q[i].Seq() < s
    ensures forall k :: k in HeightMap(q) ==> k < s
  {
    if q != [] {
      HeightMapBelow(q[..|q| - 1], s);
    }
  }

  lemma {:induction false} HeightMapFrom(q: seq<Entry>, s: nat)
    requires forall i :: 0 <= i < |q| ==> s <= q[i].Seq()
    ensures forall k :: k in HeightMap(q) ==> s <= k
  {
    if q != [] {
      HeightMapFrom(q[..|q| - 1], s);
    }
  }

  /** The partition point separates smaller numbers from the others. */
  lemma BelowSplits(q: seq<Entry>, s: nat)
    requires Ascending(q)
    ensures forall i :: 0 <= i < Below(q, s) ==> q[i].Seq() < s
    ensures forall i :: Below(q, s) <= i < |q| ==> s <= q[i].Seq()
  {
    BelowSpec(q, s);
    var p := Below(q, s);
    forall i | p <= i < |q| ensures s <= q[i].Seq() {
      if p < i {
        assert q[p].Seq() < q[i].Seq();
      }
    }
  }

  lemma HeightMapUpper(lo: seq<Entry>, hi: seq<Entry>, s: nat)
    requires forall i :: 0 <= i < |lo| ==> lo[i].Seq() < s
    requires forall i :: 0 <= i < |hi| ==> s <= hi[i].Seq()
    ensures HeightMap(hi) == map k | k in HeightMap(lo + hi) && s <= k :: HeightMap(lo + hi)[k]
  {
    HeightMapConcat(lo, hi);
    HeightMapBelow(lo, s);
    HeightMapFrom(hi, s);
    UpperPart(HeightMap(lo), HeightMap(hi), s);
  }

  lemma HeightMapDrop(q: seq<Entry>, s: nat)
    requires Ascending(q)
    ensures HeightMap(q[Below(q, s)..]) == map k | k in HeightMap(q) && s <= k :: HeightMap(q)[k]
  {
    var p := Below(q, s);
    BelowSplits(q, s);
    HeightMapUpper(q[..p], q[p..], s);
    assert q[..p] + q[p..] == q;
  }

  lemma UpperPart(lo: map<nat, nat>, hi: map<nat, nat>, s: nat)
    requires (forall k :: k in lo ==> k < s) && (forall k :: k in hi ==> s <= k)
    ensures hi == map k | k in lo + hi && s <= k :: (lo + hi)[k]
  {
  }

  /** The `n` slots from `pos` hold `n` consecutive sequence numbers. */
  predicate Consecutive(q: seq<Entry>, pos: nat, n: nat)
    requires pos + n <= |q|
  {
    forall k :: pos <= k < pos + n ==> q[k].Seq() == q[pos].Seq() + (k - pos)
  }

  /** In a sorted queue, slots are consecutive exactly when the last one is where it should be. */
  lemma {:induction false} ConsecutiveByLast(q: seq<Entry>, pos: nat, n: nat)
    requires Ascending(q)
    requires 0 < n && pos + n <= |q|
    ensures q[pos].Seq() + n - 1 <= q[pos + n - 1].Seq()
    ensures Consecutive(q, pos, n) <==> q[pos + n - 1].Seq() == q[pos].Seq() + n - 1
  {
    if n > 1 {
      ConsecutiveByLast(q, pos, n - 1);
      assert q[pos + n - 2].Seq() < q[pos + n - 1].Seq();
      assert Consecutive(q, pos, n) ==> Consecutive(q, pos, n - 1);
    }
  }
}
