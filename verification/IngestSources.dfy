/**
 Which transport prevails at a field, source by source: Bluetooth over everything else, and both
 MQTT transports, which are equals, over HTTP.
 */
module IngestSources {
  import opened Wrappers
  import opened Json
  import opened IngestRule
  import opened IngestStep
  import opened IngestRuns

  /** The pairs of sources in which the first has to wait for the second's window to pass. */
  predicate YieldsToSource(source: DataSource, owner: DataSource) {
    match owner
    case Ble => source == Http || source == CloudMqtt || source == LocalMqtt
    case CloudMqtt => source == Http
    case LocalMqtt => source == Http
    case Http => false
  }

  /** The caller's reading of the clock counts first, then the frame's own, then the gate's. */
  function ArrivedAt(a: Arrival): real {
    match a.receivedAt
    case Some(t) => t
    case None => match a.obs.receivedAt case Some(t) => t case None => a.monotonic
  }

  /** A timestamped live frame that is older than the window. */
  predicate IsLate(a: Arrival) {
    && !IsPeriodicSection(a.obs.section) && a.window > 0.0
    && a.obs.observedAt.Some? && a.obs.observedAt.value + a.window < a.now
  }

  /** What keeps a populated value with this owner from the frame. */
  predicate HeldOff(a: Arrival, owner: Option<Provenance>) {
    || IsLate(a)
    || (owner.Some?
        && (|| (YieldsToSource(a.obs.source, owner.value.source)
                && a.window > 0.0 && ArrivedAt(a) < owner.value.receivedAt + a.window)
            || (a.obs.observedAt.Some? && owner.value.observedAt.Some?
                && a.obs.observedAt.value < owner.value.observedAt.value)))
  }

  lemma ProtectsIsHeldOff(a: Arrival, owner: Option<Provenance>)
    ensures Protects(a.Ctx(), owner) <==> HeldOff(a, owner)
  {}

  /**
   A populated leaf that a frame of its shape carries is replaced, with the frame's sender as owner,
   unless the frame is late, is older than the leaf, or comes from a source that has to wait.
   */
  lemma LeafIsReplacedExactly(s: State, a: Arrival, q: Path)
    requires Matched(s) && Compatible(s.payload, a.obs.payload) && q in s.owners
    requires s.At(q).Leaf? && !Blank(s.At(q).value) && a.At(q).Leaf? && !Blank(a.At(q).value)
    ensures var t, o := Ingest(s, a), a.obs;
      if HeldOff(a, Some(s.owners[q])) then t.At(q) == s.At(q) && Find(t.owners, q) == Some(s.owners[q])
      else t.At(q) == a.At(q)
           && Find(t.owners, q) == Some(Provenance(o.source, o.section, o.observedAt, ArrivedAt(a), o.requestId))
  {
    assert q != [] by {
      PathsAreSlots(s.payload, q);
    }
    ProtectsIsHeldOff(a, Some(s.owners[q]));
    StepLeafRule(a.Ctx(), s.payload, a.obs.payload, s.owners, q);
    StepOutcome(a.Ctx(), s.payload, a.obs.payload, s.owners, q);
  }

  /**
   While its window lasts, a Bluetooth value is safe from any sequence of HTTP, cloud MQTT and local
   MQTT frames, and an MQTT value from any sequence of HTTP frames.
   */
  lemma WaitingSourcesChangeNothing(s: State, later: seq<Arrival>, q: Path)
    requires Matched(s) && q in s.owners && s.At(q).Leaf? && !Blank(s.At(q).value)
    requires forall i :: 0 <= i < |later| ==>
      && YieldsToSource(later[i].obs.source, s.owners[q].source) && KeepsObjectsAbove(later[i], q)
      && later[i].window > 0.0 && ArrivedAt(later[i]) < s.owners[q].receivedAt + later[i].window
    ensures var t := RunFrom(s, later); t.At(q) == s.At(q) && Find(t.owners, q) == Some(s.owners[q])
  {
    FreshLeafIsProtected(s, later, q);
  }

  /** The two MQTT transports update each other's values in arrival order. */
  lemma MqttReplacesMqtt(s: State, a: Arrival, q: Path)
    requires Matched(s) && Compatible(s.payload, a.obs.payload) && q in s.owners
    requires s.At(q).Leaf? && a.At(q).Leaf? && !Blank(a.At(q).value)
    requires s.owners[q].source == CloudMqtt || s.owners[q].source == LocalMqtt
    requires a.obs.source == CloudMqtt || a.obs.source == LocalMqtt
    requires !IsLate(a) && (a.obs.observedAt == None || s.owners[q].observedAt == None
      || a.obs.observedAt.value >= s.owners[q].observedAt.value)
    ensures Ingest(s, a).At(q) == a.At(q) && q in Ingest(s, a).owners && Ingest(s, a).owners[q].source == a.obs.source
  {
    assert q != [] by {
      PathsAreSlots(s.payload, q);
    }
    ProtectsIsHeldOff(a, Some(s.owners[q]));
    StepLeafRule(a.Ctx(), s.payload, a.obs.payload, s.owners, q);
    StepOutcome(a.Ctx(), s.payload, a.obs.payload, s.owners, q);
  }

  /**
   A value inside a cached object that has no owner of its own is held by the owner of the object, or
   by nobody if that has none either.
   */
  lemma CachedLeafInheritsOwner(s: State, a: Arrival, k: string, x: string)
    requires k in s.payload && s.payload[k].Obj? && x in s.payload[k].fields
    requires k in a.obs.payload && a.obs.payload[k].Obj? && x in a.obs.payload[k].fields
    requires var held, v := s.payload[k].fields[x], a.obs.payload[k].fields[x];
      !held.Obj? && !Blank(held) && !v.Obj? && !Blank(v)
    requires [k, x] !in s.owners
    ensures var t := Ingest(s, a).payload;
      && k in t && t[k].Obj? && x in t[k].fields
      && t[k].fields[x] ==
           if HeldOff(a, Find(s.owners, [k])) then s.payload[k].fields[x] else a.obs.payload[k].fields[x]
  {
    var c, owner := a.Ctx(), Find(s.owners, [k]);
    ProtectsIsHeldOff(a, owner);
    assert [k] + [x] == [k, x];
    assert OwnerOf(s.owners, [k] + [x], owner) == owner;
    var below := NestedFields(c, s.payload[k].fields, a.obs.payload[k].fields, [k], owner, s.owners);
    assert TopFields(c, s.payload, a.obs.payload, s.owners)[k] == Obj(below);
    assert below[x] == NestedValue(c, s.payload[k].fields[x], a.obs.payload[k].fields[x], [k] + [x], owner, s.owners);
  }

  /** A known name ends at position `n`, at the end of the section or before an underscore. */
  predicate NameEndsAt(section: string, n: int) {
    0 <= n <= |section| && section[..n] in PERIODIC_SECTION_PREFIXES && (n == |section| || section[n] == '_')
  }

  lemma PrefixEnds(section: string, prefix: string)
    ensures (section == prefix || prefix + "_" <= section) <==>
      (|prefix| <= |section| && section[..|prefix|] == prefix && (|prefix| == |section| || section[|prefix|] == '_'))
  {
    if |prefix| < |section| && section[..|prefix|] == prefix && section[|prefix|] == '_' {
      assert section[..|prefix| + 1] == prefix + "_";
    }
    if prefix + "_" <= section {
      assert section[|prefix|] == (prefix + "_")[|prefix|];
      assert section[..|prefix|] == (prefix + "_")[..|prefix|];
    }
  }

  /** A section is periodic if it is one of the known names or goes on after one with an underscore. */
  lemma PeriodicExactly(section: string)
    ensures IsPeriodicSection(section) <==> exists n :: NameEndsAt(section, n)
  {
    if prefix :| prefix in PERIODIC_SECTION_PREFIXES && (section == prefix || prefix + "_" <= section) {
      PrefixEnds(section, prefix);
      assert NameEndsAt(section, |prefix|);
    }
    if n :| NameEndsAt(section, n) {
      PrefixEnds(section, section[..n]);
    }
  }
}
