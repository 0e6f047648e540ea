/** The zones of the v2 cache: grouped by kind when saved (cachesaver/save/v2/save.go), flattened
    again when loaded (cachesaver/save/v2/load.go). */
module CacheZones {
  import opened Seqs

  const REGION: nat := 1
  const COUNTRY: nat := 2

  /** A zone, its name and geometry left abstract. */
  datatype Zone<G> = Zone(kind: nat, shape: G)

  datatype ZoneBlob<G> = ZoneBlob(zoneType: nat, zones: seq<G>)

  function OfKind<G>(zones: seq<Zone<G>>, kind: nat): seq<G> {
    if zones == [] then [] else
    OfKind(zones[..|zones| - 1], kind) + If(zones[|zones| - 1].kind == kind, [zones[|zones| - 1].shape])
  }

  /** `buildZonesSection`: regions, then countries; a kind without zones gets no blob. */
  method BuildZonesSection<G>(zones: seq<Zone<G>>) returns (section: seq<ZoneBlob<G>>)
    ensures section == Section(zones)
  {
    var regionZones, countryZones := [], [];
    for i := 0 to |zones|
      invariant regionZones == OfKind(zones[..i], REGION) && countryZones == OfKind(zones[..i], COUNTRY)
    {
      var z := zones[i];
      assert zones[..i + 1][..i] == zones[..i];
      match z.kind
      case 1 => regionZones := regionZones + [z.shape];
      case 2 => countryZones := countryZones + [z.shape];
      case _ =>
    }
    assert zones[..|zones|] == zones;
    section := [];
    if |regionZones| > 0 {
      section := section + [ZoneBlob(REGION, regionZones)];
    }
    if |countryZones| > 0 {
      section := section + [ZoneBlob(COUNTRY, countryZones)];
    }
  }

  function Section<G>(zones: seq<Zone<G>>): seq<ZoneBlob<G>> {
    If(OfKind(zones, REGION) != [], [ZoneBlob(REGION, OfKind(zones, REGION))])
    + If(OfKind(zones, COUNTRY) != [], [ZoneBlob(COUNTRY, OfKind(zones, COUNTRY))])
  }

  /** `parseV2Zones`: blobs of unknown type are skipped. */
  function ParseZones<G>(section: seq<ZoneBlob<G>>): seq<Zone<G>> {
    if section == [] then [] else
    var blob := section[|section| - 1];
    ParseZones(section[..|section| - 1])
    + If(blob.zoneType == REGION || blob.zoneType == COUNTRY, Tagged(blob.zoneType, blob.zones))
  }

  function Tagged<G>(kind: nat, shapes: seq<G>): seq<Zone<G>> {
    seq(|shapes|, i requires 0 <= i < |shapes| => Zone(kind, shapes[i]))
  }

  lemma {:induction false} TaggedKind<G>(kind: nat, shapes: seq<G>, other: nat)
    ensures OfKind(Tagged(kind, shapes), other) == if kind == other then shapes else []
  {
    if shapes != [] {
      var s := Tagged(kind, shapes);
      assert s[..|s| - 1] == Tagged(kind, shapes[..|shapes| - 1]);
      TaggedKind(kind, shapes[..|shapes| - 1], other);
    }
  }

  lemma {:induction false} OfKindConcat<G>(a: seq<Zone<G>>, b: seq<Zone<G>>, kind: nat)
    ensures OfKind(a + b, kind) == OfKind(a, kind) + OfKind(b, kind)
    decreases |b|
  {
    if b == [] {
      assert a + b == a;
    } else {
      OfKindConcat(a, b[..|b| - 1], kind);
      assert (a + b)[..|a + b| - 1] == a + b[..|b| - 1];
    }
  }

  /** The trip through the file keeps the regions and the countries, each in their order, which is
      the order in which they are put into their border tree; every other zone is gone. */
  lemma ZonesSurvive<G>(zones: seq<Zone<G>>, kind: nat)
    ensures OfKind(ParseZones(Section(zones)), kind) == if kind == REGION || kind == COUNTRY then OfKind(zones, kind) else []
  {
    hide *;
    var r, c := OfKind(zones, REGION), OfKind(zones, COUNTRY);
    Parsed(zones, r, c);
    OfKindConcat(Tagged(REGION, r), Tagged(COUNTRY, c), kind);
    TaggedKind(REGION, r, kind);
    TaggedKind(COUNTRY, c, kind);
    Kinds();
    assert r + [] == r && [] + c == c && [] + [] == c[..0];
  }

  lemma Kinds()
    ensures REGION != COUNTRY
  {
  }

  lemma Parsed<G>(zones: seq<Zone<G>>, r: seq<G>, c: seq<G>)
    requires r == OfKind(zones, REGION) && c == OfKind(zones, COUNTRY)
    ensures ParseZones(Section(zones)) == Tagged(REGION, r) + Tagged(COUNTRY, c)
  {
    var a, b := If(r != [], [ZoneBlob(REGION, r)]), If(c != [], [ZoneBlob(COUNTRY, c)]);
    hide OfKind, Tagged;
    ParseOne(REGION, r);
    ParseOne(COUNTRY, c);
    if c == [] {
      assert Section(zones) == a;
      NoneTagged<G>(COUNTRY);
    } else {
      assert Section(zones)[..|a|] == a;
    }
  }

  lemma NoneTagged<G>(kind: nat)
    ensures Tagged<G>(kind, []) == []
  {
  }

  lemma ParseOne<G>(kind: nat, shapes: seq<G>)
    requires kind == REGION || kind == COUNTRY
    ensures ParseZones(If(shapes != [], [ZoneBlob(kind, shapes)])) == Tagged(kind, shapes)
  {
    if shapes != [] {
      assert [ZoneBlob(kind, shapes)][..0] == [];
    }
  }

  /** The shapes in the blobs of a kind. */
  ghost function ShapesOf<G>(section: seq<ZoneBlob<G>>, kind: nat): seq<G> {
    if section == [] then [] else
    var blob := section[|section| - 1];
    ShapesOf(section[..|section| - 1], kind) + (if blob.zoneType == kind then blob.zones else [])
  }

  /** Whatever the section, exactly the zones of types 1 and 2 come out of it, each type in order. */
  lemma {:induction false} ParsedKinds<G>(section: seq<ZoneBlob<G>>, kind: nat)
    ensures OfKind(ParseZones(section), kind) == if kind == 1 || kind == 2 then ShapesOf(section, kind) else []
  {
    if section != [] {
      var front, blob := section[..|section| - 1], section[|section| - 1];
      ParsedKinds(front, kind);
      var more := If(blob.zoneType == REGION || blob.zoneType == COUNTRY, Tagged(blob.zoneType, blob.zones));
      OfKindConcat(ParseZones(front), more, kind);
      TaggedKind(blob.zoneType, blob.zones, kind);
    }
  }
}
