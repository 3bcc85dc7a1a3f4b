/**
  The site and mutation bookkeeping of one ancestry record, stated on values:
  the per-position arrays `site_id_map_*` and `site_last_mutation_*` the driver
  keeps beside each record, the recurrence chains of mutations, and how the
  truncated record's mutations mirror the full record's.
*/
module Records {
  import opened Types
  import opened Overlaps
  import opened Samplers

  /** The index of the last mutation at `site`, or NULL when there is none. */
  function LastAt(ms: seq<Mutation>, site: int): (r: int)
    ensures NULL <= r < |ms|
    ensures r != NULL ==> ms[r].site == site
    decreases |ms|
  {
    if ms == [] then NULL
    else if ms[|ms| - 1].site == site then |ms| - 1
    else LastAt(ms[..|ms| - 1], site)
  }

  /** No mutation after the one `LastAt` finds is at the same site. */
  lemma {:induction false} LastAtIsLast(ms: seq<Mutation>, site: int)
    ensures forall k :: LastAt(ms, site) < k < |ms| ==> ms[k].site != site
    decreases |ms|
  {
    if ms != [] && ms[|ms| - 1].site != site {
      var pre := ms[..|ms| - 1];
      LastAtIsLast(pre, site);
      assert forall k :: 0 <= k < |pre| ==> pre[k] == ms[k];
    }
  }

  /** The number of mutations at `site`. */
  function CountAt(ms: seq<Mutation>, site: int): (r: nat)
    ensures r <= |ms|
    ensures r == 0 <==> LastAt(ms, site) == NULL
    decreases |ms|
  {
    if ms == [] then 0
    else CountAt(ms[..|ms| - 1], site) + (if ms[|ms| - 1].site == site then 1 else 0)
  }

  lemma LastAtAppend(ms: seq<Mutation>, m: Mutation, site: int)
    ensures LastAt(ms + [m], site) == if m.site == site then |ms| else LastAt(ms, site)
    ensures CountAt(ms + [m], site) == CountAt(ms, site) + (if m.site == site then 1 else 0)
  {
    assert (ms + [m])[..|ms|] == ms;
  }

  /** `site_id_map[p]` is the id of the site at position `p` (NULL if none), and
      every site sits at a distinct position recorded there. */
  ghost predicate SitesIndexed(sites: seq<Site>, siteMap: seq<int>)
  {
    (forall k :: 0 <= k < |sites| ==>
       0 <= sites[k].position < |siteMap| && siteMap[sites[k].position] == k && sites[k].ancestralState == [STATE_A]) &&
    (forall p :: 0 <= p < |siteMap| ==>
       NULL <= siteMap[p] < |sites| && (siteMap[p] != NULL ==> sites[siteMap[p]].position == p))
  }

  /** Each mutation refers to an existing site and its parent is the previous
      mutation at that site (NULL for the first); stated for the newest
      mutation on top of the records before it. */
  ghost predicate ChainsWellFormed(numSites: nat, muts: seq<Mutation>)
    decreases |muts|
  {
    muts == [] ||
    var pre, m := muts[..|muts| - 1], muts[|muts| - 1];
    ChainsWellFormed(numSites, pre) && 0 <= m.site < numSites && m.parent == LastAt(pre, m.site)
  }

  /** Every mutation of a well-formed record, not only the newest, sits on an
      existing site and has the previous mutation at that site as its parent. */
  lemma {:induction false} ChainAt(numSites: nat, muts: seq<Mutation>, k: int)
    requires ChainsWellFormed(numSites, muts)
    requires 0 <= k < |muts|
    ensures 0 <= muts[k].site < numSites && muts[k].parent == LastAt(muts[..k], muts[k].site)
    decreases |muts|
  {
    var pre := muts[..|muts| - 1];
    if k < |pre| {
      ChainAt(numSites, pre, k);
      assert pre[..k] == muts[..k] && pre[k] == muts[k];
    }
  }

  /** Creating more sites keeps the chains well formed. */
  lemma {:induction false} ChainsWiden(numSites: nat, numSites': nat, muts: seq<Mutation>)
    requires ChainsWellFormed(numSites, muts) && numSites <= numSites'
    ensures ChainsWellFormed(numSites', muts)
    decreases |muts|
  {
    if muts != [] {
      ChainsWiden(numSites, numSites', muts[..|muts| - 1]);
    }
  }

  /** A site is only ever created together with a mutation at it. */
  ghost predicate SitesUsed(numSites: nat, muts: seq<Mutation>)
  {
    forall s :: 0 <= s < numSites ==> LastAt(muts, s) != NULL
  }

  /** `site_last_mutation[p]` is the last mutation at position `p`, NULL if none. */
  ghost predicate LastIndexed(siteMap: seq<int>, lastMut: seq<int>, muts: seq<Mutation>)
  {
    |lastMut| == |siteMap| &&
    forall p :: 0 <= p < |siteMap| ==> lastMut[p] == LastAt(muts, siteMap[p])
  }

  ghost predicate RecordOk(sites: seq<Site>, muts: seq<Mutation>, siteMap: seq<int>, lastMut: seq<int>)
  {
    SitesIndexed(sites, siteMap) && ChainsWellFormed(|sites|, muts) &&
    SitesUsed(|sites|, muts) && LastIndexed(siteMap, lastMut, muts)
  }

  /** In the full record, a mutation's derived state is fixed by how many
      mutations preceded it at its site; stated for the newest mutation on top
      of the records before it. */
  ghost predicate StatesCounted(muts: seq<Mutation>)
    decreases |muts|
  {
    muts == [] ||
    var pre, m := muts[..|muts| - 1], muts[|muts| - 1];
    StatesCounted(pre) && m.derivedState == DerivedState(CountAt(pre, m.site))
  }

  /** Every mutation's state, not only the newest one's, is fixed by its count. */
  lemma {:induction false} StateAt(muts: seq<Mutation>, k: int)
    requires StatesCounted(muts)
    requires 0 <= k < |muts|
    ensures muts[k].derivedState == DerivedState(CountAt(muts[..k], muts[k].site))
    decreases |muts|
  {
    var pre := muts[..|muts| - 1];
    if k < |pre| {
      StateAt(pre, k);
      assert pre[..k] == muts[..k] && pre[k] == muts[k];
    }
  }

  /** `site_last_mutation_order[p]` counts the full record's mutations at position `p`. */
  ghost predicate OrderCounted(order: seq<nat>, siteMap: seq<int>, muts: seq<Mutation>)
  {
    |order| == |siteMap| &&
    forall p :: 0 <= p < |siteMap| ==> order[p] == CountAt(muts, siteMap[p])
  }

  /** A record holds at most one site per position. */
  lemma SitePositionsUnique(sites: seq<Site>, siteMap: seq<int>, a: int, b: int)
    requires SitesIndexed(sites, siteMap)
    requires 0 <= a < |sites| && 0 <= b < |sites| && a != b
    ensures sites[a].position != sites[b].position
  {
  }

  /** A position whose site id is NULL has no mutation and a NULL last mutation. */
  lemma NoSiteNoMutation(sites: seq<Site>, muts: seq<Mutation>, siteMap: seq<int>, lastMut: seq<int>, p: nat)
    requires RecordOk(sites, muts, siteMap, lastMut)
    requires p < |siteMap| && siteMap[p] == NULL
    ensures lastMut[p] == NULL && CountAt(muts, NULL) == 0
  {
    var r := LastAt(muts, NULL);
    if r != NULL {
      ChainAt(|sites|, muts, r);
      assert false;
    }
  }

  /** A site id not yet handed out has no mutation. */
  lemma FreshSiteUnused(sites: seq<Site>, muts: seq<Mutation>)
    requires ChainsWellFormed(|sites|, muts)
    ensures LastAt(muts, |sites|) == NULL && CountAt(muts, |sites|) == 0
  {
    var r := LastAt(muts, |sites|);
    if r != NULL {
      ChainAt(|sites|, muts, r);
      assert false;
    }
  }

  /** The state after placing a mutation at position `pos`: the site is created
      if the position has none, the mutation's parent is the position's last
      mutation, and the new mutation becomes the last one. */
  ghost predicate Placed(
    sites: seq<Site>, muts: seq<Mutation>, siteMap: seq<int>, lastMut: seq<int>,
    pos: nat, node: int, time: int, ds: seq<Byte>,
    sites': seq<Site>, muts': seq<Mutation>, siteMap': seq<int>, lastMut': seq<int>)
    requires pos < |siteMap| && |lastMut| == |siteMap|
  {
    (siteMap[pos] == NULL ==> sites' == sites + [Site(pos, [STATE_A])] && siteMap' == siteMap[pos := |sites|]) &&
    (siteMap[pos] != NULL ==> sites' == sites && siteMap' == siteMap) &&
    muts' == muts + [Mutation(siteMap'[pos], node, lastMut[pos], time, ds)] &&
    lastMut' == lastMut[pos := |muts|]
  }

  /** Creating the site (when missing) keeps the site index consistent and
      points the position at its site. */
  lemma PlaceKeepsSites(
    sites: seq<Site>, siteMap: seq<int>, pos: nat, sites': seq<Site>, siteMap': seq<int>)
    requires SitesIndexed(sites, siteMap)
    requires pos < |siteMap|
    requires siteMap[pos] == NULL ==> sites' == sites + [Site(pos, [STATE_A])] && siteMap' == siteMap[pos := |sites|]
    requires siteMap[pos] != NULL ==> sites' == sites && siteMap' == siteMap
    ensures SitesIndexed(sites', siteMap')
    ensures 0 <= siteMap'[pos] < |sites'| && sites'[siteMap'[pos]].position == pos
    ensures forall p :: 0 <= p < |siteMap| && siteMap[p] != NULL ==> siteMap'[p] == siteMap[p]
    ensures forall p :: 0 <= p < |siteMap| && p != pos ==> siteMap'[p] == siteMap[p] != siteMap'[pos]
  {
    forall k | 0 <= k < |sites'|
      ensures 0 <= sites'[k].position < |siteMap'| && siteMap'[sites'[k].position] == k
    {
      if k < |sites| {
        assert sites'[k] == sites[k];
      }
    }
  }

  /** The new mutation's parent is the position's last mutation before it. */
  lemma PlaceKeepsChains(
    sites: seq<Site>, muts: seq<Mutation>, siteMap: seq<int>, lastMut: seq<int>, pos: nat,
    sites': seq<Site>, muts': seq<Mutation>, site: int, m: Mutation)
    requires RecordOk(sites, muts, siteMap, lastMut)
    requires pos < |siteMap|
    requires siteMap[pos] == NULL ==> |sites'| == |sites| + 1 && site == |sites|
    requires siteMap[pos] != NULL ==> |sites'| == |sites| && site == siteMap[pos]
    requires m.site == site && m.parent == lastMut[pos]
    requires muts' == muts + [m]
    ensures ChainsWellFormed(|sites'|, muts')
    ensures SitesUsed(|sites'|, muts')
  {
    if siteMap[pos] == NULL {
      NoSiteNoMutation(sites, muts, siteMap, lastMut, pos);
      FreshSiteUnused(sites, muts);
    }
    assert m.parent == LastAt(muts, site);
    ChainsWiden(|sites|, |sites'|, muts);
    assert muts'[..|muts|] == muts;
    forall s | 0 <= s < |sites'| ensures LastAt(muts', s) != NULL {
      LastAtAppend(muts, m, s);
    }
  }

  /** Placing a mutation keeps the record's site index, chains and last-mutation array consistent. */
  lemma PlaceKeepsRecord(
    sites: seq<Site>, muts: seq<Mutation>, siteMap: seq<int>, lastMut: seq<int>,
    pos: nat, node: int, time: int, ds: seq<Byte>,
    sites': seq<Site>, muts': seq<Mutation>, siteMap': seq<int>, lastMut': seq<int>)
    requires RecordOk(sites, muts, siteMap, lastMut)
    requires pos < |siteMap|
    requires Placed(sites, muts, siteMap, lastMut, pos, node, time, ds, sites', muts', siteMap', lastMut')
    ensures RecordOk(sites', muts', siteMap', lastMut')
    ensures 0 <= siteMap'[pos] < |sites'| && sites'[siteMap'[pos]].position == pos
    ensures forall p :: 0 <= p < |siteMap| && siteMap[p] != NULL ==> siteMap'[p] == siteMap[p]
  {
    var m := Mutation(siteMap'[pos], node, lastMut[pos], time, ds);
    PlaceKeepsSites(sites, siteMap, pos, sites', siteMap');
    PlaceKeepsChains(sites, muts, siteMap, lastMut, pos, sites', muts', siteMap'[pos], m);
    var site := siteMap'[pos];
    forall p | 0 <= p < |siteMap'| ensures lastMut'[p] == LastAt(muts', siteMap'[p]) {
      LastAtAppend(muts, m, siteMap'[p]);
      if p != pos && siteMap[p] == NULL {
        NoSiteNoMutation(sites, muts, siteMap, lastMut, p);
      }
    }
  }

  /** The count at the position where a mutation is placed, before placing it,
      is the count at the site it is placed on. */
  lemma PlaceSiteCount(
    sites: seq<Site>, muts: seq<Mutation>, siteMap: seq<int>, lastMut: seq<int>, order: seq<nat>,
    pos: nat, site: int)
    requires RecordOk(sites, muts, siteMap, lastMut) && OrderCounted(order, siteMap, muts)
    requires pos < |siteMap|
    requires siteMap[pos] == NULL ==> site == |sites|
    requires siteMap[pos] != NULL ==> site == siteMap[pos]
    ensures CountAt(muts, site) == order[pos]
  {
    if siteMap[pos] == NULL {
      NoSiteNoMutation(sites, muts, siteMap, lastMut, pos);
      FreshSiteUnused(sites, muts);
    }
  }

  /** A mutation appended with the state its count fixes keeps every state counted. */
  lemma AppendKeepsStates(muts: seq<Mutation>, m: Mutation)
    requires StatesCounted(muts)
    requires m.derivedState == DerivedState(CountAt(muts, m.site))
    ensures StatesCounted(muts + [m])
  {
    assert (muts + [m])[..|muts|] == muts;
  }

  /** Placing a mutation in the full record with the state `calc_derived_state`
      gives it, and incrementing `site_last_mutation_order` at its position,
      keeps the counts and the derived states in step. */
  lemma PlaceKeepsCounts(
    sites: seq<Site>, muts: seq<Mutation>, siteMap: seq<int>, lastMut: seq<int>, order: seq<nat>,
    pos: nat, node: int, time: int,
    sites': seq<Site>, muts': seq<Mutation>, siteMap': seq<int>, lastMut': seq<int>)
    requires RecordOk(sites, muts, siteMap, lastMut)
    requires StatesCounted(muts) && OrderCounted(order, siteMap, muts)
    requires pos < |siteMap|
    requires Placed(sites, muts, siteMap, lastMut, pos, node, time, CalcDerivedState(order, pos), sites', muts', siteMap', lastMut')
    ensures StatesCounted(muts')
    ensures OrderCounted(order[pos := order[pos] + 1], siteMap', muts')
  {
    PlaceKeepsSites(sites, siteMap, pos, sites', siteMap');
    var site := siteMap'[pos];
    var m := Mutation(site, node, lastMut[pos], time, CalcDerivedState(order, pos));
    PlaceSiteCount(sites, muts, siteMap, lastMut, order, pos, site);
    AppendKeepsStates(muts, m);
    OrderAfterAppend(order, siteMap, muts, pos, siteMap', m);
  }

  /** The record's newest mutation was placed at position `pos` on `node` at
      `time` with state `ds`, and no mirrored mutation is that one. */
  ghost predicate NewestAt(sites: seq<Site>, muts: seq<Mutation>, source: seq<nat>, pos: nat, node: int, time: int, ds: seq<Byte>)
  {
    |muts| > 0 &&
    (forall k :: 0 <= k < |source| ==> source[k] < |muts| - 1) &&
    var m := muts[|muts| - 1];
    m.node == node && m.time == time && m.derivedState == ds && PositionOf(sites, m.site) == pos
  }

  /** Placing the drawn mutation in the full record, with the state its count
      fixes, keeps the record, its counts and the truncated record's mirror
      consistent, and makes it the newest mutation. */
  lemma PlaceFullKeeps(
    sites: seq<Site>, muts: seq<Mutation>, siteMap: seq<int>, lastMut: seq<int>, order: seq<nat>,
    trSites: seq<Site>, trMuts: seq<Mutation>, source: seq<nat>, intervals: seq<Interval>,
    pos: nat, node: int, time: int,
    sites': seq<Site>, muts': seq<Mutation>, siteMap': seq<int>, lastMut': seq<int>)
    requires RecordOk(sites, muts, siteMap, lastMut)
    requires StatesCounted(muts) && OrderCounted(order, siteMap, muts)
    requires Mirrors(sites, muts, trSites, trMuts, source)
    requires TruncatedSitesKept(trSites, siteMap, intervals)
    requires pos < |siteMap|
    requires Placed(sites, muts, siteMap, lastMut, pos, node, time, CalcDerivedState(order, pos), sites', muts', siteMap', lastMut')
    ensures RecordOk(sites', muts', siteMap', lastMut')
    ensures StatesCounted(muts') && OrderCounted(order[pos := order[pos] + 1], siteMap', muts')
    ensures Mirrors(sites', muts', trSites, trMuts, source)
    ensures TruncatedSitesKept(trSites, siteMap', intervals)
    ensures NewestAt(sites', muts', source, pos, node, time, CalcDerivedState(order, pos))
    ensures siteMap'[pos] != NULL
  {
    PlaceKeepsRecord(sites, muts, siteMap, lastMut, pos, node, time, CalcDerivedState(order, pos), sites', muts', siteMap', lastMut');
    PlaceKeepsCounts(sites, muts, siteMap, lastMut, order, pos, node, time, sites', muts', siteMap', lastMut');
    FullGrowthKeepsMirrors(sites, muts, trSites, trMuts, source, sites', muts');
    assert muts'[|muts'| - 1].site == siteMap'[pos];
  }

  /** Copying the newest full mutation into the truncated record, at a position
      inside the keep-intervals, keeps the truncated record consistent, extends
      the mirror by that mutation and keeps every truncated site a kept full site. */
  lemma PlaceTruncatedKeeps(
    fullSites: seq<Site>, fullMuts: seq<Mutation>, fullMap: seq<int>,
    trSites: seq<Site>, trMuts: seq<Mutation>, trMap: seq<int>, trLast: seq<int>,
    source: seq<nat>, intervals: seq<Interval>, pos: nat, node: int, time: int, ds: seq<Byte>,
    trSites': seq<Site>, trMuts': seq<Mutation>, trMap': seq<int>, trLast': seq<int>)
    requires RecordOk(trSites, trMuts, trMap, trLast)
    requires Mirrors(fullSites, fullMuts, trSites, trMuts, source)
    requires TruncatedSitesKept(trSites, fullMap, intervals)
    requires NewestAt(fullSites, fullMuts, source, pos, node, time, ds)
    requires pos < |fullMap| && fullMap[pos] != NULL && InUnion(pos as real, intervals)
    requires pos < |trMap|
    requires Placed(trSites, trMuts, trMap, trLast, pos, node, time, ds, trSites', trMuts', trMap', trLast')
    ensures RecordOk(trSites', trMuts', trMap', trLast')
    ensures Mirrors(fullSites, fullMuts, trSites', trMuts', source + [|fullMuts| - 1])
    ensures TruncatedSitesKept(trSites', fullMap, intervals)
  {
    PlaceKeepsRecord(trSites, trMuts, trMap, trLast, pos, node, time, ds, trSites', trMuts', trMap', trLast');
    var tm := Mutation(trMap'[pos], node, trLast[pos], time, ds);
    assert trMuts' == trMuts + [tm];
    MirrorNewest(fullSites, fullMuts, trSites, trMuts, source, trSites', tm);
    forall k | 0 <= k < |trSites'|
      ensures 0 <= trSites'[k].position < |fullMap| && fullMap[trSites'[k].position] != NULL &&
              InUnion(trSites'[k].position as real, intervals)
    {
      if k < |trSites| {
        assert trSites'[k] == trSites[k];
      }
    }
  }

  /** Incrementing the count at the position of an appended mutation keeps every
      position's count in step with the record. */
  lemma OrderAfterAppend(order: seq<nat>, siteMap: seq<int>, muts: seq<Mutation>, pos: nat, siteMap': seq<int>, m: Mutation)
    requires OrderCounted(order, siteMap, muts)
    requires pos < |siteMap| == |siteMap'|
    requires m.site == siteMap'[pos] && CountAt(muts, m.site) == order[pos]
    requires forall p :: 0 <= p < |siteMap| && p != pos ==> siteMap'[p] == siteMap[p] != m.site
    ensures OrderCounted(order[pos := order[pos] + 1], siteMap', muts + [m])
  {
    var order' := order[pos := order[pos] + 1];
    forall p | 0 <= p < |siteMap'| ensures order'[p] == CountAt(muts + [m], siteMap'[p]) {
      LastAtAppend(muts, m, siteMap'[p]);
    }
  }

  /** The position of site `s`, NULL when `s` is not a site of the record. */
  function PositionOf(sites: seq<Site>, s: int): int
  {
    if 0 <= s < |sites| then sites[s].position else NULL
  }

  /** The truncated mutation `tm` repeats the full mutation `fm`: same node,
      time, derived state and position. */
  ghost predicate SameMutation(trSites: seq<Site>, tm: Mutation, fullSites: seq<Site>, fm: Mutation)
  {
    tm.node == fm.node && tm.time == fm.time && tm.derivedState == fm.derivedState &&
    PositionOf(trSites, tm.site) == PositionOf(fullSites, fm.site) != NULL
  }

  /** `source[k]` is the full mutation that truncated mutation `k` repeats; the
      map is strictly increasing, so no full mutation is repeated twice. */
  ghost predicate Mirrors(fullSites: seq<Site>, fullMuts: seq<Mutation>, trSites: seq<Site>, trMuts: seq<Mutation>, source: seq<nat>)
  {
    |source| == |trMuts| &&
    (forall k :: 0 <= k < |source| ==> source[k] < |fullMuts| && SameMutation(trSites, trMuts[k], fullSites, fullMuts[source[k]])) &&
    (forall a, b :: 0 <= a < b < |source| ==> source[a] < source[b])
  }

  /** Every truncated site has a full site at the same position, inside a keep-interval. */
  ghost predicate TruncatedSitesKept(trSites: seq<Site>, fullSiteMap: seq<int>, intervals: seq<Interval>)
  {
    forall k :: 0 <= k < |trSites| ==>
      0 <= trSites[k].position < |fullSiteMap| && fullSiteMap[trSites[k].position] != NULL &&
      InUnion(trSites[k].position as real, intervals)
  }

  /** The mirror copies exactly the full mutations at kept positions: full
      mutation `k` is repeated in the truncated record iff its position lies in
      a keep-interval. */
  ghost predicate CopiesKept(fullSites: seq<Site>, fullMuts: seq<Mutation>, source: seq<nat>, intervals: seq<Interval>)
  {
    forall k :: 0 <= k < |fullMuts| ==>
      (k in source <==> InUnion(PositionOf(fullSites, fullMuts[k].site) as real, intervals))
  }

  /** A segment's step keeps the copy rule: a drawn full mutation at `pos` is
      copied exactly when `pos` is kept, and earlier mutations keep their sites. */
  lemma CopiesKeptStep(sites: seq<Site>, muts: seq<Mutation>, source: seq<nat>, intervals: seq<Interval>,
                       sites': seq<Site>, muts': seq<Mutation>, source': seq<nat>, pos: nat, add: bool)
    requires CopiesKept(sites, muts, source, intervals) && ChainsWellFormed(|sites|, muts)
    requires forall k :: 0 <= k < |source| ==> source[k] < |muts|
    requires sites <= sites' && muts <= muts'
    requires add ==> |muts'| == |muts| + 1 && PositionOf(sites', muts'[|muts|].site) == pos
    requires !add ==> muts' == muts
    requires source' == if add && InUnion(pos as real, intervals) then source + [|muts|] else source
    ensures CopiesKept(sites', muts', source', intervals)
  {
    forall k | 0 <= k < |muts'|
      ensures k in source' <==> InUnion(PositionOf(sites', muts'[k].site) as real, intervals)
    {
      if k < |muts| {
        ChainAt(|sites|, muts, k);
        assert muts'[k] == muts[k] && sites'[muts[k].site] == sites[muts[k].site];
        assert k in source' <==> k in source;
      }
    }
  }

  /** Appending sites and mutations to the full record keeps the mirror. */
  lemma FullGrowthKeepsMirrors(
    fullSites: seq<Site>, fullMuts: seq<Mutation>, trSites: seq<Site>, trMuts: seq<Mutation>, source: seq<nat>,
    fullSites': seq<Site>, fullMuts': seq<Mutation>)
    requires Mirrors(fullSites, fullMuts, trSites, trMuts, source)
    requires fullSites <= fullSites' && fullMuts <= fullMuts'
    ensures Mirrors(fullSites', fullMuts', trSites, trMuts, source)
  {
    forall k | 0 <= k < |source|
      ensures source[k] < |fullMuts'| && SameMutation(trSites, trMuts[k], fullSites', fullMuts'[source[k]])
    {
      assert fullMuts'[source[k]] == fullMuts[source[k]];
      var s := fullMuts[source[k]].site;
      assert PositionOf(fullSites, s) != NULL;
      assert fullSites'[s] == fullSites[s];
    }
  }

  /** Appending to the truncated record a copy of the newest full mutation
      extends the mirror. */
  lemma {:induction false} MirrorNewest(
    fullSites: seq<Site>, fullMuts: seq<Mutation>, trSites: seq<Site>, trMuts: seq<Mutation>, source: seq<nat>,
    trSites': seq<Site>, tm: Mutation)
    requires Mirrors(fullSites, fullMuts, trSites, trMuts, source)
    requires |fullMuts| > 0
    requires forall k :: 0 <= k < |source| ==> source[k] < |fullMuts| - 1
    requires trSites <= trSites'
    requires SameMutation(trSites', tm, fullSites, fullMuts[|fullMuts| - 1])
    ensures Mirrors(fullSites, fullMuts, trSites', trMuts + [tm], source + [|fullMuts| - 1])
  {
    var source' := source + [|fullMuts| - 1];
    var trMuts' := trMuts + [tm];
    forall k | 0 <= k < |source'|
      ensures source'[k] < |fullMuts| && SameMutation(trSites', trMuts'[k], fullSites, fullMuts[source'[k]])
    {
      if k < |source| {
        assert source'[k] == source[k] && trMuts'[k] == trMuts[k];
        var s := trMuts[k].site;
        assert PositionOf(trSites, s) != NULL;
        assert trSites'[s] == trSites[s];
      }
    }
  }
}
