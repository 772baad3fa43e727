/** The complete-timing route catalog. */
module Modes {
  import opened Wire

  /** The set of bits of a 32-bit flag word: `&` is intersection and `|` is union. */
  type Flags = s: set<nat> | forall b :: b in s ==> b < 32

  const USER_MASK: Flags := {0, 1, 2, 3, 4, 5, 6, 7, 8, 9, 12, 13}   // 0x33ff
  const PREFERRED: nat := 10

  datatype DisplayMode = DisplayMode(
    clock: u32,
    hdisplay: u16, hsyncStart: u16, hsyncEnd: u16, htotal: u16,
    vdisplay: u16, vsyncStart: u16, vsyncEnd: u16, vtotal: u16,
    flags: Flags)

  datatype ModeKey = ModeKey(
    connector: u8,
    clock: u32,
    hdisplay: u16, hsyncStart: u16, hsyncEnd: u16, htotal: u16,
    vdisplay: u16, vsyncStart: u16, vsyncEnd: u16, vtotal: u16,
    flags: Flags)

  function KeyOf(connector: u8, mode: DisplayMode): ModeKey {
    ModeKey(connector, mode.clock, mode.hdisplay, mode.hsyncStart, mode.hsyncEnd, mode.htotal,
            mode.vdisplay, mode.vsyncStart, mode.vsyncEnd, mode.vtotal, mode.flags * USER_MASK)
  }

  /** The comparison SET_STATE_CHECK makes between an advertised mode and a requested one. */
  predicate SameUserTiming(left: DisplayMode, right: DisplayMode) {
    && left.clock == right.clock
    && left.hdisplay == right.hdisplay
    && left.hsyncStart == right.hsyncStart
    && left.hsyncEnd == right.hsyncEnd
    && left.htotal == right.htotal
    && left.vdisplay == right.vdisplay
    && left.vsyncStart == right.vsyncStart
    && left.vsyncEnd == right.vsyncEnd
    && left.vtotal == right.vtotal
    && left.flags * USER_MASK == right.flags * USER_MASK
  }

  function NormalizeAdvertisedMode(mode: DisplayMode, preferred: bool): DisplayMode {
    mode.(flags := if preferred then mode.flags * USER_MASK + {PREFERRED} else mode.flags * USER_MASK)
  }

  /** What the keys of two modes compare: nine numbers, and the flag bits 0 to 9, 12 and 13. */
  lemma SameKeyMeans(connector: u8, left: DisplayMode, right: DisplayMode)
    ensures KeyOf(connector, left) == KeyOf(connector, right) <==>
      && left.clock == right.clock
      && left.hdisplay == right.hdisplay && left.hsyncStart == right.hsyncStart
      && left.hsyncEnd == right.hsyncEnd && left.htotal == right.htotal
      && left.vdisplay == right.vdisplay && left.vsyncStart == right.vsyncStart
      && left.vsyncEnd == right.vsyncEnd && left.vtotal == right.vtotal
      && forall b: nat :: b <= 9 || b == 12 || b == 13 ==> (b in left.flags <==> b in right.flags)
  {
    UserMaskBits();
    if forall b: nat :: b <= 9 || b == 12 || b == 13 ==> (b in left.flags <==> b in right.flags) {
      forall b: nat ensures b in left.flags * USER_MASK <==> b in right.flags * USER_MASK {}
      assert left.flags * USER_MASK == right.flags * USER_MASK;
    } else {
      var b: nat :| (b <= 9 || b == 12 || b == 13) && !(b in left.flags <==> b in right.flags);
      assert !(b in left.flags * USER_MASK <==> b in right.flags * USER_MASK);
    }
  }

  /** A key holds the connector, the nine numbers and those flags. */
  lemma KeyHolds(connector: u8, mode: DisplayMode)
    ensures var key := KeyOf(connector, mode);
      && key.connector == connector && key.clock == mode.clock
      && key.hdisplay == mode.hdisplay && key.hsyncStart == mode.hsyncStart
      && key.hsyncEnd == mode.hsyncEnd && key.htotal == mode.htotal
      && key.vdisplay == mode.vdisplay && key.vsyncStart == mode.vsyncStart
      && key.vsyncEnd == mode.vsyncEnd && key.vtotal == mode.vtotal
      && forall b: nat :: b in key.flags <==> b in mode.flags && (b <= 9 || b == 12 || b == 13)
  {
    UserMaskBits();
  }

  lemma UserMaskBits()
    ensures forall b: nat :: b in USER_MASK <==> b <= 9 || b == 12 || b == 13
  {}

  /** A mode of the DRM connector, with the timing it reports. */
  datatype DrmMode = DrmMode(id: nat, timing: DisplayMode)

  datatype CatalogRoute = Exact(mode: DrmMode) | ScaledFallback

  datatype CatalogEntry = CatalogEntry(key: ModeKey, advertisedMode: DisplayMode, route: CatalogRoute)
  {
    predicate Preferred() { PREFERRED in advertisedMode.flags }
  }

  datatype PhysicalCatalogMode = PhysicalCatalogMode(mode: DrmMode, timing: DisplayMode)

  datatype BuildError = NoPhysicalMode | PreferredOutOfRange | PreferredNotUnique

  datatype BuildResult = Ok(catalog: RouteCatalog) | Err(error: BuildError)

  datatype RouteCatalog = RouteCatalog(
    connector: u8, entries: seq<CatalogEntry>, byKey: map<ModeKey, nat>, preferredIndex: nat)
  {
    ghost predicate Valid() {
      Indexes(entries, byKey) && preferredIndex < |entries|
    }

    function EntryForKey(key: ModeKey): Option<CatalogEntry>
      requires Valid()
    {
      if key in byKey then Some(entries[byKey[key]]) else None
    }

    function AdvertisedModes(): (modes: seq<DisplayMode>)
      ensures |modes| == |entries| && forall i :: 0 <= i < |entries| ==> modes[i] == entries[i].advertisedMode
    {
      seq(|entries|, i requires 0 <= i < |entries| => entries[i].advertisedMode)
    }
  }

  /** `byKey` is the inverse of the keys of `entries`, so the keys are distinct. */
  ghost predicate Indexes(entries: seq<CatalogEntry>, byKey: map<ModeKey, nat>) {
    && (forall i :: 0 <= i < |entries| ==> entries[i].key in byKey && byKey[entries[i].key] == i)
    && (forall k :: k in byKey ==> byKey[k] < |entries| && entries[byKey[k]].key == k)
  }

  // ---------- the reference: a linear scan ----------

  function PhysicalEntry(connector: u8, physical: PhysicalCatalogMode): CatalogEntry {
    CatalogEntry(KeyOf(connector, physical.timing), NormalizeAdvertisedMode(physical.timing, false), Exact(physical.mode))
  }

  function SyntheticEntry(connector: u8, synthetic: DisplayMode): CatalogEntry {
    CatalogEntry(KeyOf(connector, synthetic), NormalizeAdvertisedMode(synthetic, false), ScaledFallback)
  }

  function PhysicalEntries(connector: u8, physical: seq<PhysicalCatalogMode>): (entries: seq<CatalogEntry>)
    ensures |entries| == |physical|
    ensures forall i :: 0 <= i < |physical| ==> entries[i] == PhysicalEntry(connector, physical[i])
  {
    seq(|physical|, i requires 0 <= i < |physical| => PhysicalEntry(connector, physical[i]))
  }

  function SyntheticEntries(connector: u8, synthetic: seq<DisplayMode>): (entries: seq<CatalogEntry>)
    ensures |entries| == |synthetic|
    ensures forall i :: 0 <= i < |synthetic| ==> entries[i] == SyntheticEntry(connector, synthetic[i])
  {
    seq(|synthetic|, i requires 0 <= i < |synthetic| => SyntheticEntry(connector, synthetic[i]))
  }

  /** Every mode on offer: the physical ones in order, then the synthetic ones. */
  function Offered(connector: u8, physical: seq<PhysicalCatalogMode>, synthetic: seq<DisplayMode>): seq<CatalogEntry> {
    PhysicalEntries(connector, physical) + SyntheticEntries(connector, synthetic)
  }

  /** The first entry of that key. */
  function FirstMatch(offered: seq<CatalogEntry>, key: ModeKey): Option<CatalogEntry> {
    if offered == [] then None
    else
      var found := FirstMatch(offered[..|offered| - 1], key);
      if found.Some? then found
      else if offered[|offered| - 1].key == key then Some(offered[|offered| - 1])
      else None
  }

  /** No earlier entry matches, and the result is an entry of that key. */
  lemma {:induction false} FirstMatchIsFirst(offered: seq<CatalogEntry>, key: ModeKey)
    ensures FirstMatch(offered, key).None? <==> forall i :: 0 <= i < |offered| ==> offered[i].key != key
    ensures FirstMatch(offered, key).Some? ==>
      exists i :: 0 <= i < |offered| && offered[i].key == key && FirstMatch(offered, key).value == offered[i]
                  && forall j :: 0 <= j < i ==> offered[j].key != key
  {
    if offered != [] {
      var last := |offered| - 1;
      FirstMatchIsFirst(offered[..last], key);
      if FirstMatch(offered[..last], key).Some? {
        var i :| 0 <= i < last && offered[..last][i].key == key
              && FirstMatch(offered[..last], key).value == offered[..last][i]
              && forall j :: 0 <= j < i ==> offered[..last][j].key != key;
        assert offered[i].key == key;
        assert forall j :: 0 <= j < i ==> offered[j].key == offered[..last][j].key;
      } else {
        assert forall j :: 0 <= j < last ==> offered[j].key == offered[..last][j].key;
      }
    }
  }

  /** The index built from the first `n` offers answers as the linear scan does. */
  ghost predicate Answers(entries: seq<CatalogEntry>, byKey: map<ModeKey, nat>, offered: seq<CatalogEntry>) {
    && Indexes(entries, byKey)
    && forall key :: FirstMatch(offered, key) == if key in byKey then Some(entries[byKey[key]]) else None
  }

  lemma AnswersNext(entries: seq<CatalogEntry>, byKey: map<ModeKey, nat>, offered: seq<CatalogEntry>,
                       next: CatalogEntry)
    requires Answers(entries, byKey, offered)
    ensures next.key in byKey ==> Answers(entries, byKey, offered + [next])
    ensures next.key !in byKey ==> Answers(entries + [next], byKey[next.key := |entries|], offered + [next])
  {
    assert (offered + [next])[..|offered|] == offered;
    forall key
      ensures FirstMatch(offered + [next], key)
        == if FirstMatch(offered, key).Some? then FirstMatch(offered, key)
           else if next.key == key then Some(next) else None
    {}
  }

  // ---------- building ----------

  /** An entry as it is finally advertised. */
  function Flagged(entry: CatalogEntry, preferred: bool): CatalogEntry {
    entry.(advertisedMode := NormalizeAdvertisedMode(entry.advertisedMode, preferred))
  }

  /** Number of entries that are advertised as preferred. */
  function PreferredCount(entries: seq<CatalogEntry>): nat {
    if entries == [] then 0
    else PreferredCount(entries[..|entries| - 1]) + if entries[|entries| - 1].Preferred() then 1 else 0
  }

  lemma {:induction false} OnePreferred(entries: seq<CatalogEntry>, preferredIndex: nat)
    requires forall i :: 0 <= i < |entries| ==> (entries[i].Preferred() <==> i == preferredIndex)
    ensures PreferredCount(entries) == if preferredIndex < |entries| then 1 else 0
  {
    if entries != [] { OnePreferred(entries[..|entries| - 1], preferredIndex); }
  }

  /** Every advertised mode has the key of its entry, and carries the preferred flag only by choice. */
  ghost predicate Normalized(connector: u8, entries: seq<CatalogEntry>) {
    forall i :: 0 <= i < |entries| ==>
      entries[i].key == KeyOf(connector, entries[i].advertisedMode) && !entries[i].Preferred()
  }

  lemma NormalizeKeepsKey(connector: u8, mode: DisplayMode, preferred: bool)
    ensures KeyOf(connector, NormalizeAdvertisedMode(mode, preferred)) == KeyOf(connector, mode)
    ensures PREFERRED in NormalizeAdvertisedMode(mode, preferred).flags <==> preferred
  {
    var flags := NormalizeAdvertisedMode(mode, preferred).flags;
    assert flags * USER_MASK == mode.flags * USER_MASK;
  }

  /** What a catalog promises: it answers every key as the scan of all offers does, with one preferred timing. */
  ghost predicate Faithful(catalog: RouteCatalog, offered: seq<CatalogEntry>, preferredKey: ModeKey) {
    && catalog.Valid()
    && (forall key :: catalog.EntryForKey(key)
          == match FirstMatch(offered, key)
             case None => None
             case Some(entry) => Some(Flagged(entry, key == preferredKey)))
    && catalog.entries[catalog.preferredIndex].key == preferredKey
    && PreferredCount(catalog.entries) == 1
    && (forall i :: 0 <= i < |catalog.entries| ==>
          && catalog.entries[i].key == KeyOf(catalog.connector, catalog.entries[i].advertisedMode)
          && (catalog.entries[i].Preferred() <==> i == catalog.preferredIndex))
  }

  /** The mode that offer `k` is for. */
  function OfferedMode(physical: seq<PhysicalCatalogMode>, synthetic: seq<DisplayMode>, k: nat): DisplayMode
    requires k < |physical| + |synthetic|
  {
    if k < |physical| then physical[k].timing else synthetic[k - |physical|]
  }

  lemma OfferAt(connector: u8, physical: seq<PhysicalCatalogMode>, synthetic: seq<DisplayMode>, k: nat)
    requires k < |physical| + |synthetic|
    ensures |Offered(connector, physical, synthetic)| == |physical| + |synthetic|
    ensures var offer := Offered(connector, physical, synthetic)[k];
      && offer.key == KeyOf(connector, OfferedMode(physical, synthetic, k))
      && offer.route == if k < |physical| then Exact(physical[k].mode) else ScaledFallback
  {}

  /** An entry is the first offer of its timing. */
  lemma EntryIsFirst(catalog: RouteCatalog, physical: seq<PhysicalCatalogMode>, synthetic: seq<DisplayMode>,
                     preferredKey: ModeKey, i: nat) returns (j: nat)
    requires i < |catalog.entries| && Faithful(catalog, Offered(catalog.connector, physical, synthetic), preferredKey)
    ensures var e := catalog.entries[i];
      && j < |physical| + |synthetic| && SameUserTiming(OfferedMode(physical, synthetic, j), e.advertisedMode)
      && (forall k :: 0 <= k < j ==> !SameUserTiming(OfferedMode(physical, synthetic, k), e.advertisedMode))
      && e.route == if j < |physical| then Exact(physical[j].mode) else ScaledFallback
  {
    var offered, e := Offered(catalog.connector, physical, synthetic), catalog.entries[i];
    assert catalog.EntryForKey(e.key) == Some(e);
    FirstMatchIsFirst(offered, e.key);
    j :| 0 <= j < |offered| && offered[j].key == e.key && FirstMatch(offered, e.key).value == offered[j]
         && forall k :: 0 <= k < j ==> offered[k].key != e.key;
    OfferAt(catalog.connector, physical, synthetic, j);
    forall k | 0 <= k < j ensures !SameUserTiming(OfferedMode(physical, synthetic, k), e.advertisedMode) {
      OfferAt(catalog.connector, physical, synthetic, k);
      assert offered[k].key != e.key;
    }
  }

  /** Where an entry comes from. Only a physical mode has an exact route, and the route leads to the first one of that
      timing; a scaled route is that of a synthetic timing which no physical mode has. */
  lemma CatalogRoutes(catalog: RouteCatalog, physical: seq<PhysicalCatalogMode>, synthetic: seq<DisplayMode>,
                      preferredKey: ModeKey, i: nat)
    requires i < |catalog.entries| && Faithful(catalog, Offered(catalog.connector, physical, synthetic), preferredKey)
    ensures var e := catalog.entries[i];
      match e.route
      case Exact(mode) =>
        exists p :: 0 <= p < |physical| && physical[p].mode == mode && SameUserTiming(physical[p].timing, e.advertisedMode)
                    && forall q :: 0 <= q < p ==> !SameUserTiming(physical[q].timing, e.advertisedMode)
      case ScaledFallback =>
        && (forall p :: 0 <= p < |physical| ==> !SameUserTiming(physical[p].timing, e.advertisedMode))
        && exists q :: 0 <= q < |synthetic| && SameUserTiming(synthetic[q], e.advertisedMode)
  {
    var j := EntryIsFirst(catalog, physical, synthetic, preferredKey, i);
    var e := catalog.entries[i];
    forall q | 0 <= q < |physical| && q < j ensures !SameUserTiming(physical[q].timing, e.advertisedMode) {
      assert OfferedMode(physical, synthetic, q) == physical[q].timing;
    }
    if j < |physical| {
      assert OfferedMode(physical, synthetic, j) == physical[j].timing;
    } else {
      assert OfferedMode(physical, synthetic, j) == synthetic[j - |physical|];
    }
  }

  /** The flags of an entry are bits 0 to 9, 12 and 13, and bit 10 for the preferred one. */
  lemma CatalogFlags(catalog: RouteCatalog, physical: seq<PhysicalCatalogMode>, synthetic: seq<DisplayMode>,
                     preferredKey: ModeKey, i: nat)
    requires i < |catalog.entries| && Faithful(catalog, Offered(catalog.connector, physical, synthetic), preferredKey)
    ensures 10 in catalog.entries[i].advertisedMode.flags <==> i == catalog.preferredIndex
    ensures forall b :: b in catalog.entries[i].advertisedMode.flags ==> b <= 10 || b == 12 || b == 13
  {
    var offered, e := Offered(catalog.connector, physical, synthetic), catalog.entries[i];
    assert catalog.EntryForKey(e.key) == Some(e);
    assert e == Flagged(FirstMatch(offered, e.key).value, e.key == preferredKey);
  }

  /** Every mode on offer is in the catalog. */
  lemma CatalogIsComplete(catalog: RouteCatalog, physical: seq<PhysicalCatalogMode>, synthetic: seq<DisplayMode>,
                          preferredKey: ModeKey, k: nat)
    requires k < |physical| + |synthetic|
    requires Faithful(catalog, Offered(catalog.connector, physical, synthetic), preferredKey)
    ensures exists i :: 0 <= i < |catalog.entries| &&
                        SameUserTiming(OfferedMode(physical, synthetic, k), catalog.entries[i].advertisedMode)
  {
    var offered := Offered(catalog.connector, physical, synthetic);
    OfferAt(catalog.connector, physical, synthetic, k);
    FirstMatchIsFirst(offered, offered[k].key);
    assert catalog.EntryForKey(offered[k].key).Some?;
    var i := catalog.byKey[offered[k].key];
    assert catalog.entries[i].key == KeyOf(catalog.connector, OfferedMode(physical, synthetic, k));
  }

  /** One offer: a mode whose timing is already catalogued is skipped. */
  method Add(connector: u8, next: CatalogEntry, ghost seen: seq<CatalogEntry>,
             entries0: seq<CatalogEntry>, byKey0: map<ModeKey, nat>)
    returns (entries: seq<CatalogEntry>, byKey: map<ModeKey, nat>)
    requires Answers(entries0, byKey0, seen) && Normalized(connector, entries0)
    requires next.key == KeyOf(connector, next.advertisedMode) && !next.Preferred()
    ensures Answers(entries, byKey, seen + [next]) && Normalized(connector, entries)
    ensures byKey.Keys == byKey0.Keys + {next.key} && forall k :: k in byKey0 ==> byKey[k] == byKey0[k]
  {
    entries, byKey := entries0, byKey0;
    AnswersNext(entries, byKey, seen, next);
    if next.key in byKey { return; }
    entries, byKey := entries + [next], byKey[next.key := |entries|];
  }

  method Catalogue(connector: u8, candidates: seq<CatalogEntry>, ghost offered: seq<CatalogEntry>,
                   entries0: seq<CatalogEntry>, byKey0: map<ModeKey, nat>)
    returns (entries: seq<CatalogEntry>, byKey: map<ModeKey, nat>)
    requires Answers(entries0, byKey0, offered) && Normalized(connector, entries0) && Normalized(connector, candidates)
    ensures Answers(entries, byKey, offered + candidates) && Normalized(connector, entries)
    ensures forall i :: 0 <= i < |candidates| ==> candidates[i].key in byKey
    ensures byKey0.Keys <= byKey.Keys && (forall k :: k in byKey0 ==> byKey[k] == byKey0[k])
  {
    entries, byKey := entries0, byKey0;
    ghost var seen := offered;
    for i := 0 to |candidates|
      invariant seen == offered + candidates[..i]
      invariant Answers(entries, byKey, seen) && Normalized(connector, entries)
      invariant forall j :: 0 <= j < i ==> candidates[j].key in byKey
      invariant byKey0.Keys <= byKey.Keys && (forall k :: k in byKey0 ==> byKey[k] == byKey0[k])
    {
      entries, byKey := Add(connector, candidates[i], seen, entries, byKey);
      seen := seen + [candidates[i]];
    }
    assert candidates[..|candidates|] == candidates;
  }

  /** Marks the preferred entry. */
  method MarkPreferred(connector: u8, entries0: seq<CatalogEntry>, preferredIndex: nat)
    returns (entries: seq<CatalogEntry>)
    requires Normalized(connector, entries0)
    ensures |entries| == |entries0|
    ensures forall i :: 0 <= i < |entries| ==>
      && entries[i] == Flagged(entries0[i], i == preferredIndex)
      && entries[i].key == KeyOf(connector, entries[i].advertisedMode)
      && (entries[i].Preferred() <==> i == preferredIndex)
  {
    entries := entries0;
    for index := 0 to |entries0|
      invariant |entries| == |entries0|
      invariant forall i :: 0 <= i < index ==>
        && entries[i] == Flagged(entries0[i], i == preferredIndex)
        && entries[i].key == KeyOf(connector, entries[i].advertisedMode)
        && (entries[i].Preferred() <==> i == preferredIndex)
      invariant forall i :: index <= i < |entries| ==> entries[i] == entries0[i]
    {
      NormalizeKeepsKey(connector, entries[index].advertisedMode, index == preferredIndex);
      entries := entries[index := Flagged(entries[index], index == preferredIndex)];
    }
  }

  lemma OffersNormalized(connector: u8, physical: seq<PhysicalCatalogMode>, synthetic: seq<DisplayMode>)
    ensures Normalized(connector, PhysicalEntries(connector, physical))
    ensures Normalized(connector, SyntheticEntries(connector, synthetic))
  {
    forall i | 0 <= i < |physical| ensures PhysicalEntry(connector, physical[i]).key
        == KeyOf(connector, PhysicalEntry(connector, physical[i]).advertisedMode)
        && !PhysicalEntry(connector, physical[i]).Preferred() {
      NormalizeKeepsKey(connector, physical[i].timing, false);
    }
    forall i | 0 <= i < |synthetic| ensures SyntheticEntry(connector, synthetic[i]).key
        == KeyOf(connector, SyntheticEntry(connector, synthetic[i]).advertisedMode)
        && !SyntheticEntry(connector, synthetic[i]).Preferred() {
      NormalizeKeepsKey(connector, synthetic[i], false);
    }
  }

  lemma FlaggingIsFaithful(catalog: RouteCatalog, entries0: seq<CatalogEntry>, offered: seq<CatalogEntry>,
                              preferredKey: ModeKey)
    requires Answers(entries0, catalog.byKey, offered)
    requires preferredKey in catalog.byKey && catalog.preferredIndex == catalog.byKey[preferredKey]
    requires |catalog.entries| == |entries0|
    requires forall i :: 0 <= i < |entries0| ==>
      && catalog.entries[i] == Flagged(entries0[i], i == catalog.preferredIndex)
      && catalog.entries[i].key == KeyOf(catalog.connector, catalog.entries[i].advertisedMode)
      && (catalog.entries[i].Preferred() <==> i == catalog.preferredIndex)
    ensures Faithful(catalog, offered, preferredKey)
  {
    OnePreferred(catalog.entries, catalog.preferredIndex);
    forall k | k in catalog.byKey
      ensures catalog.byKey[k] < |catalog.entries| && catalog.entries[catalog.byKey[k]].key == k
    {
      assert entries0[catalog.byKey[k]].key == k;
    }
    assert Indexes(catalog.entries, catalog.byKey);
    forall key
      ensures catalog.EntryForKey(key)
        == match FirstMatch(offered, key)
           case None => None
           case Some(entry) => Some(Flagged(entry, key == preferredKey))
    {
      if key in catalog.byKey {
        assert FirstMatch(offered, key) == Some(entries0[catalog.byKey[key]]);
        assert catalog.byKey[key] == catalog.preferredIndex ==> key == preferredKey;
      }
    }
  }

  /** Catalogues every offer; the preferred timing is always among the physical ones. */
  method CatalogueAll(connector: u8, physical: seq<PhysicalCatalogMode>, preferredPhysicalIndex: nat,
                      synthetic: seq<DisplayMode>)
    returns (entries: seq<CatalogEntry>, byKey: map<ModeKey, nat>, preferredIndex: nat)
    requires preferredPhysicalIndex < |physical|
    ensures Answers(entries, byKey, Offered(connector, physical, synthetic)) && Normalized(connector, entries)
    ensures var key := KeyOf(connector, physical[preferredPhysicalIndex].timing); key in byKey && preferredIndex == byKey[key]
  {
    OffersNormalized(connector, physical, synthetic);
    var exact, scaled := PhysicalEntries(connector, physical), SyntheticEntries(connector, synthetic);
    assert [] + exact == exact;
    entries, byKey := Catalogue(connector, exact, [], [], map[]);
    var preferred := exact[preferredPhysicalIndex].key;
    assert preferred in byKey;
    preferredIndex := byKey[preferred];
    entries, byKey := Catalogue(connector, scaled, exact, entries, byKey);
  }

  /** Only a missing physical mode or a bad preferred index is refused; the final check never fails. */
  method Build(connector: u8, physical: seq<PhysicalCatalogMode>, preferredPhysicalIndex: nat,
               synthetic: seq<DisplayMode>)
    returns (result: BuildResult)
    ensures physical == [] ==> result == Err(NoPhysicalMode)
    ensures physical != [] && preferredPhysicalIndex >= |physical| ==> result == Err(PreferredOutOfRange)
    ensures preferredPhysicalIndex < |physical| ==>
      && result.Ok? && result.catalog.connector == connector
      && Faithful(result.catalog, Offered(connector, physical, synthetic),
                  KeyOf(connector, physical[preferredPhysicalIndex].timing))
  {
    if physical == [] { return Err(NoPhysicalMode); }
    if preferredPhysicalIndex >= |physical| { return Err(PreferredOutOfRange); }
    var entries, byKey, preferredIndex := CatalogueAll(connector, physical, preferredPhysicalIndex, synthetic);
    var flagged := MarkPreferred(connector, entries, preferredIndex);
    var catalog := RouteCatalog(connector, flagged, byKey, preferredIndex);
    FlaggingIsFaithful(catalog, entries, Offered(connector, physical, synthetic),
                       KeyOf(connector, physical[preferredPhysicalIndex].timing));
    if PreferredCount(catalog.entries) != 1 { return Err(PreferredNotUnique); }
    return Ok(catalog);
  }
}
