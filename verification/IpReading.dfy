/** When a stored IP payload passes its model again: exactly when its free texts still fit once escaped. */
module IpReading {
  import opened Wrappers
  import opened Values
  import opened PublicFields
  import opened EscapedTexts
  import opened IpEvidence

  /** Only free texts can be spoilt by escaping. */
  predicate LeafTextFits(rules: Rules, rule: FieldRule, w: Value) {
    match rule
    case FreeText(limit) => w.Str? ==> EscapeFits(rules, w.t, limit)
    case OptionalFreeText(limit) => w.Str? ==> EscapeFits(rules, w.t, limit)
    case _ => true
  }

  /** Each declared field that is present satisfies a test on its rule and its value. */
  predicate TableFits(test: (FieldRule, Value) -> bool, rows: seq<Row>, entries: seq<Entry>) {
    forall row :: row in rows && Lookup(entries, row.name).Some? ==>
      test(row.rule, Lookup(entries, row.name).value)
  }

  predicate ProvenanceFits(rules: Rules, w: Value) {
    w.Dict? ==> TableFits((rule, v) => LeafTextFits(rules, rule, v), PROVENANCE_ROWS, w.entries)
  }

  predicate RowFits(rules: Rules, rule: FieldRule, w: Value) {
    if rule.ProvenanceTable? then ProvenanceFits(rules, w) else LeafTextFits(rules, rule, w)
  }

  /** The free texts of the payload and of its provenance fit their escapes. */
  predicate IpFits(rules: Rules, w: Value) {
    w.Dict? ==> TableFits((rule, v) => RowFits(rules, rule, v), IP_ROWS, w.entries)
  }

  lemma LeafTextReads(rules: Rules, rule: FieldRule, w: Value)
    requires LibraryLaws(rules) && Plain(w) && LeafField(rules, rule, w) == Some(w)
    ensures LeafField(rules, rule, JsonSafe(w)).Some? <==> LeafTextFits(rules, rule, w)
  {
    if w.Str? && rule.FreeText? {
      PublicOnceEscaped(rules, w.t, rule.limit);
      EscapedText(w.t);
    } else if w.Str? && rule.OptionalFreeText? {
      PublicOnceEscaped(rules, w.t, rule.limit);
    } else {
      LeafKept(rules, rule, w);
    }
  }

  /** A fixed point of a table reads back exactly when every field passes a test that decides its rule. */
  lemma TableReadsByTest(f: Rule, test: (FieldRule, Value) -> bool, rows: seq<Row>,
                         consistent: seq<Entry> -> bool, w: Value)
    requires Keeps(f) && DistinctRows(rows) && IgnoresEscapes(rows, consistent)
    requires Table(f, rows, consistent, w) == Some(w)
    requires forall rule, v :: Plain(v) && f(rule, v) == Some(v) ==> (f(rule, JsonSafe(v)).Some? <==> test(rule, v))
    ensures w.Dict? && (Table(f, rows, consistent, JsonSafe(w)).Some? <==> TableFits(test, rows, w.entries))
  {
    TableReads(f, rows, consistent, w);
    TableShape(f, rows, consistent, w);
    forall i | 0 <= i < |rows|
      ensures Lookup(w.entries, rows[i].name) == Some(w.entries[i].value)
      ensures f(rows[i].rule, JsonSafe(w.entries[i].value)).Some? <==> test(rows[i].rule, w.entries[i].value)
    {
      AlignedLookup(rows, w.entries, i);
    }
  }

  lemma ProvenanceReads(rules: Rules, w: Value)
    requires LibraryLaws(rules) && Provenance(rules, w) == Some(w)
    ensures Provenance(rules, JsonSafe(w)).Some? <==> ProvenanceFits(rules, w)
  {
    var test := (rule, v) => LeafTextFits(rules, rule, v);
    forall rule, v | Plain(v) && LeafRule(rules)(rule, v) == Some(v)
      ensures LeafRule(rules)(rule, JsonSafe(v)).Some? <==> test(rule, v)
    {
      LeafTextReads(rules, rule, v);
    }
    LeafKeeps(rules);
    ProvenanceRowsDistinct();
    ProvenanceIgnoresEscapes();
    TableReadsByTest(LeafRule(rules), test, PROVENANCE_ROWS, ProvenanceConsistent, w);
  }

  lemma RowReads(rules: Rules, rule: FieldRule, w: Value)
    requires LibraryLaws(rules) && Plain(w) && IpRule(rules)(rule, w) == Some(w)
    ensures IpRule(rules)(rule, JsonSafe(w)).Some? <==> RowFits(rules, rule, w)
  {
    if rule.ProvenanceTable? {
      ProvenanceReads(rules, w);
    } else {
      LeafTextReads(rules, rule, w);
    }
  }

  /** A settled IP payload reads back exactly when its free texts fit. */
  lemma IpPayloadReads(rules: Rules, w: Value)
    requires LibraryLaws(rules) && IpPayload(rules, w) == Some(w)
    ensures IpPayload(rules, JsonSafe(w)).Some? <==> IpFits(rules, w)
  {
    var test := (rule, v) => RowFits(rules, rule, v);
    forall rule, v | Plain(v) && IpRule(rules)(rule, v) == Some(v)
      ensures IpRule(rules)(rule, JsonSafe(v)).Some? <==> test(rule, v)
    {
      RowReads(rules, rule, v);
    }
    IpKeeps(rules);
    IpRowsDistinct();
    IpIgnoresEscapes();
    TableReadsByTest(IpRule(rules), test, IP_ROWS, IpConsistent, w);
  }
}
