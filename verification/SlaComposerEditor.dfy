/** The composer's two mappings as the code runs them: a draft and a schema object filled field by field. */
module SlaComposerEditor {
  import opened JsonValues
  import opened JsonSchema
  import opened SlaComposer

  method ReadRequired(ms: seq<Member>) returns (names: seq<Json>)
    ensures names == RequiredOf(ms)
  {
    names := [];
    if Has(ms, REQUIRED) && At(ms, REQUIRED).Arr? {
      var listed := At(ms, REQUIRED).items;
      for k := 0 to |listed|
        invariant names == Dedupe(listed[..k])
      {
        assert listed[..k + 1][..k] == listed[..k];
        if listed[k] !in names { names := names + [listed[k]]; }
      }
      assert listed[..|listed|] == listed;
    }
  }

  method ReadOrphans(names: seq<Json>, ms: seq<Member>) returns (orphans: seq<Json>)
    ensures orphans == Orphans(names, DeclaredProperties(ms).members)
  {
    orphans := [];
    for k := 0 to |names|
      invariant orphans == Orphans(names[..k], DeclaredProperties(ms).members)
    {
      assert names[..k + 1][..k] == names[..k];
      if !(Has(ms, PROPERTIES) && At(ms, PROPERTIES).Obj? && Has(At(ms, PROPERTIES).members, NameOf(names[k]))) {
        assert !Has(DeclaredProperties(ms).members, NameOf(names[k]));
        orphans := orphans + [names[k]];
      }
    }
    assert names[..|names|] == names;
  }

  /** The loop over the schema's own keywords. */
  method ReadExtras(type_: string, orphans: seq<Json>, ms: seq<Member>) returns (extra: seq<Member>)
    ensures extra == Extras(type_, orphans, ms)
  {
    var bounds := BoundKeywords(type_);
    extra := [];
    for k := 0 to |ms|
      invariant extra == Extras(type_, orphans, ms[..k])
    {
      assert ms[..k + 1][..k] == ms[..k];
      var keyword := ms[k].key;
      if keyword == REQUIRED {
        if orphans != [] { extra := Put(extra, REQUIRED, Arr(orphans)); }
        continue;
      }
      if bounds.Some? && (keyword == bounds.value.0 || keyword == bounds.value.1) { continue; }
      if keyword !in MODELLED || (keyword == PROPERTIES && type_ != OBJECT) || (keyword == ITEMS && type_ != ARRAY) {
        extra := Put(extra, keyword, ms[k].value);
      }
    }
    assert ms[..|ms|] == ms;
  }

  method ReadSchema(schema: Json, required: bool) returns (draft: Node)
    ensures draft == SchemaToNode(schema, required)
    decreases schema
  {
    if !schema.Obj? { return Blank(ANY, required); }
    var ms := schema.members;
    var type_ := TypeOf(ms);
    draft := Blank(type_, required);
    hide Extras, RequiredOf, Orphans, BoundKeywords, Find;
    var requiredNames := ReadRequired(ms);
    if type_ == OBJECT && Has(ms, PROPERTIES) && At(ms, PROPERTIES).Obj? {
      var rows := ReadRows(At(ms, PROPERTIES), requiredNames);
      draft := draft.(properties := rows);
    }
    if type_ == ARRAY && Has(ms, ITEMS) {
      var items := ReadSchema(At(ms, ITEMS), true);
      draft := draft.(items := Items(items));
    }
    var bounds := BoundKeywords(type_);
    if bounds.Some? {
      draft := draft.(min := BoundAt(ms, bounds.value.0));
      draft := draft.(max := BoundAt(ms, bounds.value.1));
    }
    var orphans := ReadOrphans(requiredNames, ms);
    var extra := ReadExtras(type_, orphans, ms);
    draft := draft.(extra := extra);
  }

  method ReadRows(properties: Json, required: seq<Json>) returns (rows: seq<Property>)
    requires properties.Obj?
    ensures rows == Rows(properties, required, |properties.members|)
    decreases properties
  {
    rows := [];
    hide SchemaToNode;
    for k := 0 to |properties.members|
      invariant rows == Rows(properties, required, k)
    {
      var m := properties.members[k];
      var node := ReadSchema(m.value, Str(m.key) in required);
      rows := rows + [Property(m.key, node, false)];
    }
  }

  method WriteSchema(draft: Node) returns (schema: Json)
    ensures schema == NodeToSchema(draft)
    decreases draft, 1
  {
    hide Entries, RequiredNames, Spread, Put, BoundKeywords;
    var ms: seq<Member> := [];
    if draft.type_ != ANY { ms := Put(ms, TYPE, Str(draft.type_)); }
    if draft.type_ == OBJECT {
      var required := WriteRequired(draft.properties);
      if required != [] { ms := Put(ms, REQUIRED, Arr(required)); }
      var entries := WriteEntries(draft);
      if entries != [] { ms := Put(ms, PROPERTIES, Obj(entries)); }
    }
    if draft.type_ == ARRAY && draft.items.Items? {
      var items := WriteSchema(draft.items.node);
      ms := Put(ms, ITEMS, items);
    }
    var keywords := BoundKeywords(draft.type_);
    if keywords.Some? {
      if draft.min.Some? { ms := Put(ms, keywords.value.0, Num(draft.min.value)); }
      if draft.max.Some? { ms := Put(ms, keywords.value.1, Num(draft.max.value)); }
    }
    schema := Obj(Spread(ms, draft.extra));
  }

  method WriteRequired(properties: seq<Property>) returns (names: seq<Json>)
    ensures names == RequiredNames(properties)
  {
    names := [];
    for k := 0 to |properties|
      invariant names == RequiredNames(properties[..k])
    {
      assert properties[..k + 1][..k] == properties[..k];
      if !properties[k].ignored && properties[k].node.required { names := names + [Str(properties[k].name)]; }
    }
    assert properties[..|properties|] == properties;
  }

  method WriteEntries(draft: Node) returns (entries: seq<Member>)
    ensures entries == Entries(draft.properties)
    decreases draft, 0
  {
    entries := [];
    hide NodeToSchema;
    for k := 0 to |draft.properties|
      invariant entries == Entries(draft.properties[..k])
    {
      assert draft.properties[..k + 1][..k] == draft.properties[..k];
      var p := draft.properties[k];
      if !p.ignored {
        var schema := WriteSchema(p.node);
        entries := Put(entries, p.name, schema);
      }
    }
    assert draft.properties[..|draft.properties|] == draft.properties;
  }
}
