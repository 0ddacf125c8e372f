/** What the composer writes back, the engine admits again: an SLA can be edited and republished. */
module SlaComposerAdmitted {
  import opened Basics
  import opened JsonValues
  import opened JsonSchema
  import opened JsonSchemaMeaning
  import opened SlaComposer
  import opened SlaComposerMeaning
  import opened SlaComposerRoundTrip

  /** What `assertSchema` asks of one keyword. */
  ghost predicate KeywordAccepted(q: string, x: Json) {
    && (q in ANNOTATIONS || q in SUPPORTED)
    && (q == TYPE ==> TypeList(x) != [] && forall name <- TypeList(x) :: KnownType(name))
    && (q == ENUM ==> x.Arr? && x.items != [])
    && (q == REQUIRED ==> x.Arr? && forall name <- x.items :: name.Str?)
    && (q in {MIN_ITEMS, MAX_ITEMS, MIN_LENGTH, MAX_LENGTH} ==> NonNegativeInteger(x))
    && (q in {MINIMUM, MAXIMUM} ==> x.Num?)
    && (q == PROPERTIES ==> x.Obj? && forall i :: 0 <= i < |x.members| ==> Accepted(x.members[i].value))
    && (q == ADDITIONAL ==> x.Bool? || Accepted(x))
    && (q == ITEMS ==> Accepted(x))
    && (q == ONE_OF ==> x.Arr? && |x.items| >= 2 && forall i :: 0 <= i < |x.items| ==> Accepted(x.items[i]))
  }

  lemma AcceptedMeansKeyword(ms: seq<Member>, q: string)
    requires Accepted(Obj(ms)) && Has(ms, q)
    ensures KeywordAccepted(q, At(ms, q))
  {
    assert ms[Find(ms, q)] in ms;
  }

  lemma KeywordsMeanAccepted(ms: seq<Member>)
    requires DistinctKeys(ms) && forall q :: Has(ms, q) ==> KeywordAccepted(q, At(ms, q))
    ensures Accepted(Obj(ms))
  {
    hide Find, KnownType, NonNegativeInteger;
    forall m <- ms ensures m.key in ANNOTATIONS || m.key in SUPPORTED {
      var i :| 0 <= i < |ms| && ms[i] == m;
      HasAt(ms, i);
    }
  }

  // ---------------------------------------------------------------- one keyword of what is written back

  lemma {:induction false} SpreadDistinct(base: seq<Member>, extra: seq<Member>)
    requires DistinctKeys(base)
    ensures DistinctKeys(Spread(base, extra))
  {
    if extra != [] {
      var last := extra[|extra| - 1];
      SpreadDistinct(base, extra[..|extra| - 1]);
      LookupPut(Spread(base, extra[..|extra| - 1]), last.key, last.value, last.key);
    }
  }

  lemma PutSomeDistinct(ms: seq<Member>, key: string, value: Option<Json>)
    requires DistinctKeys(ms)
    ensures DistinctKeys(PutSome(ms, key, value))
  {
    if value.Some? { LookupPut(ms, key, value.value, key); }
  }

  lemma NodeSchemaDistinct(n: Node)
    ensures NodeToSchema(n).Obj? && DistinctKeys(NodeToSchema(n).members)
  {
    hide PutSome, Spread, Entries, RequiredNames, DistinctKeys;
    assert DistinctKeys([]) by { NothingIsDistinct(); }
    var type_ := if n.type_ == ANY then None else Some(Str(n.type_));
    PutSomeDistinct([], TYPE, type_);
    var typed := PutSome([], TYPE, type_);
    var required := if n.type_ == OBJECT then NonEmpty(RequiredNames(n.properties)) else None;
    PutSomeDistinct(typed, REQUIRED, required);
    var promised := PutSome(typed, REQUIRED, required);
    var entries := Entries(n.properties);
    var properties := if n.type_ == OBJECT && entries != [] then Some(Obj(entries)) else None;
    PutSomeDistinct(promised, PROPERTIES, properties);
    var shaped := PutSome(promised, PROPERTIES, properties);
    var items := if n.type_ == ARRAY && n.items.Items? then Some(NodeToSchema(n.items.node)) else None;
    PutSomeDistinct(shaped, ITEMS, items);
    var itemised := PutSome(shaped, ITEMS, items);
    var bounds := BoundKeywords(n.type_);
    if bounds.Some? {
      PutSomeDistinct(itemised, bounds.value.0, NumberAt(n.min));
      PutSomeDistinct(PutSome(itemised, bounds.value.0, NumberAt(n.min)), bounds.value.1, NumberAt(n.max));
    }
    var bounded := if bounds.None? then itemised
                   else PutSome(PutSome(itemised, bounds.value.0, NumberAt(n.min)), bounds.value.1, NumberAt(n.max));
    SpreadDistinct(bounded, n.extra);
  }

  lemma NothingIsDistinct()
    ensures DistinctKeys([])
  {
  }

  lemma {:induction false} RequiredNamesAreStrings(rows: seq<Property>)
    ensures forall name <- RequiredNames(rows) :: name.Str?
  {
    if rows != [] { RequiredNamesAreStrings(rows[..|rows| - 1]); }
  }

  lemma RequiredAdmitted(ms: seq<Member>)
    requires Admitted(Obj(ms)) && RequiredBack(ms).Some?
    ensures KeywordAccepted(REQUIRED, RequiredBack(ms).value) && WellFormed(RequiredBack(ms).value)
  {
    hide Orphans, Dedupe, Rows, RequiredNames, Find;
    if OrphansOf(ms) != [] {
      forall name <- OrphansOf(ms) ensures name.Str? {
        OrphansAre(RequiredOf(ms), DeclaredProperties(ms).members, name);
        DedupeKeeps(At(ms, REQUIRED).items, name);
      }
    } else {
      RequiredNamesAreStrings(Rows(At(ms, PROPERTIES), RequiredOf(ms), |At(ms, PROPERTIES).members|));
    }
  }

  lemma {:induction false} BackAdmitted(s: Json, q: string)
    requires Admitted(s) && Back(s.members, q).Some?
    ensures KeywordAccepted(q, Back(s.members, q).value) && WellFormed(Back(s.members, q).value)
    decreases s, 1
  {
    var ms := s.members;
    if Has(ms, q) { AcceptedMeansKeyword(ms, q); MemberWellFormed(ms, q); }
    hide RoundTrip, Find, Accepted, Rows, Entries, RequiredOf, OrphansOf;
    if q == TYPE {
      TypeAdmitted(ms);
    } else if q == REQUIRED {
      RequiredAdmitted(ms);
    } else if q == PROPERTIES && TypeOf(ms) == OBJECT {
      PropertiesAdmitted(s);
    } else if q == ITEMS && TypeOf(ms) == ARRAY {
      RoundTripAdmitted(At(ms, ITEMS));
    }
  }

  lemma TypeAdmitted(ms: seq<Member>)
    requires Accepted(Obj(ms)) && TypeOf(ms) != ANY
    ensures KeywordAccepted(TYPE, Str(TypeOf(ms)))
  {
    AcceptedMeansKeyword(ms, TYPE);
    assert At(ms, TYPE) == Str(TypeOf(ms));
  }

  lemma {:induction false} PropertiesAdmitted(s: Json)
    requires Admitted(s) && TypeOf(s.members) == OBJECT && PropertiesBack(s.members).Some?
    ensures KeywordAccepted(PROPERTIES, PropertiesBack(s.members).value) && WellFormed(PropertiesBack(s.members).value)
    decreases s, 0
  {
    var ms := s.members;
    var ps := At(ms, PROPERTIES).members;
    AcceptedMeansKeyword(ms, PROPERTIES);
    MemberWellFormed(ms, PROPERTIES);
    hide RoundTrip, Find, Accepted, Rows, Entries, RequiredOf, OrphansOf, KeywordAccepted;
    EntriesOfRows(At(ms, PROPERTIES), RequiredOf(ms), |ps|);
    var ts := TrippedMembers(ps);
    assert ts[..|ps|] == ts;
    forall i | 0 <= i < |ps| ensures Accepted(ts[i].value) && WellFormed(ts[i].value) {
      RoundTripAdmitted(ps[i].value);
    }
    ObjectAdmitted(ps, ts);
  }

  lemma ObjectAdmitted(ps: seq<Member>, ts: seq<Member>)
    requires DistinctKeys(ps) && |ts| == |ps| && forall i :: 0 <= i < |ps| ==> ts[i].key == ps[i].key
    requires forall i :: 0 <= i < |ts| ==> Accepted(ts[i].value) && WellFormed(ts[i].value)
    ensures KeywordAccepted(PROPERTIES, Obj(ts)) && WellFormed(Obj(ts))
  {
    hide Accepted;
  }

  lemma {:induction false} RoundTripAdmitted(s: Json)
    requires Admitted(s)
    ensures Admitted(RoundTrip(s))
    decreases s, 2
  {
    var ms := s.members;
    var t := Written(ms);
    NodeSchemaDistinct(SchemaToNode(s, true));
    assert RoundTrip(s) == Obj(t) && DistinctKeys(t);
    hide RoundTrip, Back, WrittenBack, Find, KeywordAccepted, Accepted, DistinctKeys, NodeToSchema, SchemaToNode;
    forall q | Has(t, q) ensures KeywordAccepted(q, At(t, q)) && WellFormed(At(t, q)) {
      WrittenKeyword(ms, t, q);
      BackAdmitted(s, q);
    }
    KeywordsMeanAccepted(t);
    forall i | 0 <= i < |t| ensures WellFormed(t[i].value) {
      HasAt(t, i);
    }
  }

  /** Republishing an SLA from the composer never fails a value the original passed, and at a faithful schema
      the engine reports nothing on exactly the same values. */
  lemma EditingPreservesVerdicts(s: Json, v: Json)
    requires Admitted(s) && WellFormed(v)
    ensures Check(RoundTrip(s), v, "") != Throws
    ensures Check(s, v, "").Conforms? ==> Check(RoundTrip(s), v, "").Conforms?
    ensures Faithful(s) ==> (Check(RoundTrip(s), v, "").Conforms? <==> Check(s, v, "").Conforms?)
  {
    hide *;
    RoundTripAdmitted(s);
    RoundTripMeans(s, v);
    CheckMeans(s, v, "");
    CheckMeans(RoundTrip(s), v, "");
  }
}
