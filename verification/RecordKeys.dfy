/** `_record_key`: the structural keys under which graph records are compared and sorted. */
module RecordKeys {
  import opened Prelude
  import opened ShardBytes
  import opened ShardFormat

  /** A JSON value; a record lists its fields by sorted name. */
  datatype Value =
    | Number(n: int)
    | Text(t: string)
    | List(items: seq<Value>)
    | Record(names: seq<string>, values: seq<Value>)

  datatype Key = NumberKey(n: int) | TextKey(t: string) | Tuple(items: seq<Key>)

  const REF_FIELDS: seq<string> := ["container", "kind", "location", "symbol_id"]
  const LOCATION_FIELDS: seq<string> := ["end", "start", "uri"]
  const SYMBOL_FIELDS: seq<string> := [
    "canonical_declaration", "completion_snippet_suffix", "definition", "documentation", "flags", "id",
    "include_headers", "kind", "language", "name", "references", "return_type", "scope", "signature",
    "template_specialization_args", "type"]

  // ---- the keys -------------------------------------------------------------------------------

  predicate Scalar(v: Value) {
    v.Number? || v.Text?
  }

  predicate ScalarList(v: Value) {
    v.List? && forall i :: 0 <= i < |v.items| ==> Scalar(v.items[i])
  }

  /** What the short cuts of the code rely on: scalars and locations where the three schemas have them. */
  predicate Fits(v: Value) {
    match v
    case Number(_) => true
    case Text(_) => true
    case List(items) => forall i :: 0 <= i < |items| ==> Fits(items[i])
    case Record(names, values) =>
      && |names| == |values| && (forall i :: 0 <= i < |values| ==> Fits(values[i]))
      && (names == REF_FIELDS ==> values[2].Record? && forall i :: 0 <= i < 4 && i != 2 ==> Scalar(values[i]))
      && (names == LOCATION_FIELDS ==> ScalarList(values[0]) && ScalarList(values[1]) && Scalar(values[2]))
      && (names == SYMBOL_FIELDS ==>
            && values[0].Record? && values[2].Record?
            && values[6].List? && (forall i :: 0 <= i < |values[6].items| ==> values[6].items[i].Record?)
            && forall i :: 1 <= i < 16 && i != 2 && i != 6 ==> Scalar(values[i]))
  }

  /** A scalar stands for itself in a tuple. */
  function Raw(v: Value): Key
    requires Scalar(v)
  {
    if v.Number? then NumberKey(v.n) else TextKey(v.t)
  }

  function Raws(items: seq<Value>): (r: seq<Key>)
    requires forall i :: 0 <= i < |items| ==> Scalar(items[i])
    ensures |r| == |items|
  {
    seq(|items|, i requires 0 <= i < |items| => Raw(items[i]))
  }

  function NamesKey(names: seq<string>): Key {
    Tuple(seq(|names|, i requires 0 <= i < |names| => TextKey(names[i])))
  }

  function Framed(keys: seq<Key>, tail: seq<Key>): seq<Key> {
    [NumberKey(|keys|)] + keys + tail
  }

  /** The coordinates lie flat in the tuple, each list behind its length. */
  function LocationTuple(v: Value): Key
    requires Fits(v) && v.Record? && v.names == LOCATION_FIELDS
  {
    var end, start := v.values[0].items, v.values[1].items;
    Tuple([NamesKey(LOCATION_FIELDS)] + Framed(Raws(end), Framed(Raws(start), [Raw(v.values[2])])))
  }

  function LocationKey(v: Value): Key
    requires Fits(v) && v.Record?
    decreases v, 1
  {
    if v.names == LOCATION_FIELDS then LocationTuple(v) else RecordKey(v)
  }

  function RecordKey(v: Value): Key
    requires Fits(v) && v.Record?
    decreases v, 0
  {
    var f := v.values;
    if v.names == REF_FIELDS then
      Tuple([NamesKey(REF_FIELDS), Raw(f[0]), Raw(f[1]), LocationKey(f[2]), Raw(f[3])])
    else if v.names == SYMBOL_FIELDS then
      Tuple([NamesKey(SYMBOL_FIELDS), LocationKey(f[0]), Raw(f[1]), LocationKey(f[2])] + Raws(f[3..6])
            + [HeaderKeys(f[6])] + Raws(f[7..]))
    else if v.names == LOCATION_FIELDS then LocationTuple(v)
    else Tuple([NamesKey(v.names)] + seq(|f|, i requires 0 <= i < |f| => ValueKey(f[i])))
  }

  function HeaderKeys(v: Value): Key
    requires Fits(v) && v.List? && forall i :: 0 <= i < |v.items| ==> v.items[i].Record?
    decreases v, 1
  {
    Tuple(seq(|v.items|, i requires 0 <= i < |v.items| => RecordKey(v.items[i])))
  }

  function ValueKey(v: Value): Key
    requires Fits(v)
    decreases v, 1
  {
    match v
    case Number(n) => NumberKey(n)
    case Text(t) => TextKey(t)
    case List(items) => Tuple(seq(|items|, i requires 0 <= i < |items| => ValueKey(items[i])))
    case Record(_, _) => RecordKey(v)
  }

  // ---- the short cuts only save work ----------------------------------------------------------

  /** The keys of the fields, computed without looking at the schema. */
  function FieldKeys(values: seq<Value>): (r: seq<Key>)
    requires forall i :: 0 <= i < |values| ==> Fits(values[i])
    ensures |r| == |values|
  {
    seq(|values|, i requires 0 <= i < |values| => ValueKey(values[i]))
  }

  lemma RawIs(v: Value)
    requires Scalar(v)
    ensures Fits(v) && ValueKey(v) == Raw(v)
  {
  }

  lemma RawsAre(values: seq<Value>)
    requires forall i :: 0 <= i < |values| ==> Scalar(values[i])
    ensures forall i :: 0 <= i < |values| ==> Fits(values[i])
    ensures FieldKeys(values) == Raws(values)
  {
    forall i | 0 <= i < |values| ensures Fits(values[i]) && ValueKey(values[i]) == Raw(values[i]) { RawIs(values[i]); }
    assert FieldKeys(values) == Raws(values);
  }

  lemma LocationKeyIs(v: Value)
    requires Fits(v) && v.Record?
    ensures LocationKey(v) == ValueKey(v)
  {
  }

  lemma HeaderKeysAre(v: Value)
    requires Fits(v) && v.List? && forall i :: 0 <= i < |v.items| ==> v.items[i].Record?
    ensures HeaderKeys(v) == ValueKey(v)
  {
    assert HeaderKeys(v).items == ValueKey(v).items;
  }

  lemma RefKeyIs(v: Value)
    requires Fits(v) && v.Record? && v.names == REF_FIELDS
    ensures RecordKey(v) == Tuple([NamesKey(v.names)] + FieldKeys(v.values))
  {
    var f := v.values;
    RawIs(f[0]);
    RawIs(f[1]);
    LocationKeyIs(f[2]);
    RawIs(f[3]);
    assert [Raw(f[0]), Raw(f[1]), LocationKey(f[2]), Raw(f[3])] == FieldKeys(f) by { hide Fits, ValueKey, LocationKey; }
    assert RecordKey(v).items == [NamesKey(v.names)] + [Raw(f[0]), Raw(f[1]), LocationKey(f[2]), Raw(f[3])];
  }

  lemma SymbolKeyIs(v: Value)
    requires Fits(v) && v.Record? && v.names == SYMBOL_FIELDS
    ensures RecordKey(v) == Tuple([NamesKey(v.names)] + FieldKeys(v.values))
  {
    var f := v.values;
    assert |f| == 16;
    LocationKeyIs(f[0]);
    RawIs(f[1]);
    LocationKeyIs(f[2]);
    RawsAre(f[3..6]);
    HeaderKeysAre(f[6]);
    RawsAre(f[7..]);
    SymbolParts(f, LocationKey(f[0]), Raw(f[1]), LocationKey(f[2]), Raws(f[3..6]), HeaderKeys(f[6]), Raws(f[7..]));
    assert RecordKey(v).items == [NamesKey(v.names)] + FieldKeys(f);
  }

  lemma SymbolParts(f: seq<Value>, k0: Key, k1: Key, k2: Key, scalars: seq<Key>, headers: Key, rest: seq<Key>)
    requires |f| == 16 && forall i :: 0 <= i < |f| ==> Fits(f[i])
    requires k0 == ValueKey(f[0]) && k1 == ValueKey(f[1]) && k2 == ValueKey(f[2]) && headers == ValueKey(f[6])
    requires scalars == FieldKeys(f[3..6]) && rest == FieldKeys(f[7..])
    ensures FieldKeys(f) == [k0, k1, k2] + scalars + [headers] + rest
  {
    hide Fits, ValueKey;
    assert FieldKeys(f) == [k0, k1, k2] + scalars + [headers] + rest;
  }

  /** Except for locations, a record's key is its names and the keys of its fields, whichever branch computes it. */
  lemma RecordKeyIs(v: Value)
    requires Fits(v) && v.Record? && v.names != LOCATION_FIELDS
    ensures RecordKey(v) == Tuple([NamesKey(v.names)] + FieldKeys(v.values))
  {
    if v.names == REF_FIELDS {
      RefKeyIs(v);
    } else if v.names == SYMBOL_FIELDS {
      SymbolKeyIs(v);
    } else {
      assert RecordKey(v).items == [NamesKey(v.names)] + FieldKeys(v.values);
    }
  }

  // ---- what equal keys mean -------------------------------------------------------------------

  /** No list stands where the other value has a record, and no scalar where it has either. */
  predicate Alike(a: Value, b: Value) {
    match (a, b)
    case (List(x), List(y)) => |x| == |y| ==> forall i :: 0 <= i < |x| ==> Alike(x[i], y[i])
    case (Record(m, x), Record(n, y)) => m == n && |x| == |y| ==> forall i :: 0 <= i < |x| ==> Alike(x[i], y[i])
    case _ => Scalar(a) && Scalar(b)
  }

  lemma NamesKeyInjective(a: seq<string>, b: seq<string>)
    requires NamesKey(a) == NamesKey(b)
    ensures a == b
  {
    assert |NamesKey(a).items| == |a| && |NamesKey(b).items| == |b|;
    forall i | 0 <= i < |a| ensures a[i] == b[i] {
      assert NamesKey(a).items[i] == TextKey(a[i]) && NamesKey(b).items[i] == TextKey(b[i]);
    }
  }

  lemma RawsInjective(a: seq<Value>, b: seq<Value>)
    requires (forall i :: 0 <= i < |a| ==> Scalar(a[i])) && (forall i :: 0 <= i < |b| ==> Scalar(b[i]))
    requires Raws(a) == Raws(b)
    ensures a == b
  {
    assert |Raws(a)| == |a| && |Raws(b)| == |b|;
    forall i | 0 <= i < |a| ensures a[i] == b[i] { assert Raws(a)[i] == Raw(a[i]) && Raws(b)[i] == Raw(b[i]); }
  }

  /** The names lead the key of every record, so records with equal keys have the same fields. */
  lemma RecordNames(v: Value)
    requires Fits(v) && v.Record?
    ensures RecordKey(v).Tuple? && RecordKey(v).items != [] && RecordKey(v).items[0] == NamesKey(v.names)
  {
    if v.names != LOCATION_FIELDS { RecordKeyIs(v); }
  }

  /** A list framed by its length can be split off in one way only. */
  lemma FrameSplits(a: seq<Key>, b: seq<Key>, s: seq<Key>, t: seq<Key>)
    requires Framed(a, s) == Framed(b, t)
    ensures a == b && s == t
  {
    var x, y := Framed(a, s), Framed(b, t);
    assert x[0] == NumberKey(|a|) && y[0] == NumberKey(|b|);
    assert a == x[1..1 + |a|] && b == y[1..1 + |b|];
    assert s == x[1 + |a|..] && t == y[1 + |b|..];
  }

  /** The flat coordinates come apart again. */
  lemma LocationInjective(a: Value, b: Value)
    requires Fits(a) && a.Record? && a.names == LOCATION_FIELDS && Fits(b) && b.Record? && b.names == LOCATION_FIELDS
    requires LocationTuple(a) == LocationTuple(b)
    ensures a == b
  {
    hide Framed;
    var ends, ends' := a.values[0].items, b.values[0].items;
    var starts, starts' := a.values[1].items, b.values[1].items;
    var tail, tail' := [Raw(a.values[2])], [Raw(b.values[2])];
    assert LocationTuple(a).items[1..] == Framed(Raws(ends), Framed(Raws(starts), tail));
    assert LocationTuple(b).items[1..] == Framed(Raws(ends'), Framed(Raws(starts'), tail'));
    FrameSplits(Raws(ends), Raws(ends'), Framed(Raws(starts), tail), Framed(Raws(starts'), tail'));
    FrameSplits(Raws(starts), Raws(starts'), tail, tail');
    RawsInjective(ends, ends');
    RawsInjective(starts, starts');
    assert tail[0] == tail'[0];
    assert a.values == b.values;
  }

  lemma {:induction false} AlikeValues(a: Value, b: Value)
    requires Fits(a) && Fits(b) && Alike(a, b) && ValueKey(a) == ValueKey(b)
    ensures a == b
    decreases a
  {
    if a.List? {
      assert |ValueKey(a).items| == |a.items| && |ValueKey(b).items| == |b.items|;
      forall i | 0 <= i < |a.items| ensures a.items[i] == b.items[i] {
        assert ValueKey(a).items[i] == ValueKey(a.items[i]) && ValueKey(b).items[i] == ValueKey(b.items[i]);
        AlikeValues(a.items[i], b.items[i]);
      }
    } else if a.Record? {
      RecordNames(a);
      RecordNames(b);
      NamesKeyInjective(a.names, b.names);
      if a.names == LOCATION_FIELDS {
        LocationInjective(a, b);
      } else {
        AlikeRecords(a, b);
      }
    }
  }

  lemma {:induction false} AlikeRecords(a: Value, b: Value)
    requires Fits(a) && Fits(b) && Alike(a, b) && a.Record? && b.Record? && a.names == b.names
    requires a.names != LOCATION_FIELDS && RecordKey(a) == RecordKey(b)
    ensures a == b
    decreases a, 0
  {
    RecordKeyIs(a);
    RecordKeyIs(b);
    assert FieldKeys(a.values) == RecordKey(a).items[1..] && FieldKeys(b.values) == RecordKey(b).items[1..];
    forall i | 0 <= i < |a.values| ensures a.values[i] == b.values[i] {
      assert FieldKeys(a.values)[i] == ValueKey(a.values[i]) && FieldKeys(b.values)[i] == ValueKey(b.values[i]);
      AlikeValues(a.values[i], b.values[i]);
    }
    assert a.values == b.values;
  }

  lemma {:induction false} AlikeItself(a: Value)
    requires Fits(a)
    ensures Alike(a, a)
  {
    if a.List? {
      forall i | 0 <= i < |a.items| ensures Alike(a.items[i], a.items[i]) { AlikeItself(a.items[i]); }
    } else if a.Record? {
      forall i | 0 <= i < |a.values| ensures Alike(a.values[i], a.values[i]) { AlikeItself(a.values[i]); }
    }
  }

  /** Values with one key are the same value exactly when lists stand where lists stand and records where records. */
  lemma KeyMeansValue(a: Value, b: Value)
    requires Fits(a) && Fits(b) && ValueKey(a) == ValueKey(b)
    ensures a == b <==> Alike(a, b)
  {
    AlikeItself(a);
    if Alike(a, b) { AlikeValues(a, b); }
  }

  /** Keys of differently shaped values can collide: `{"a": 1}` has the key of `[["a"], 1]`. */
  lemma ShapesCollide()
    ensures var record, list := Record(["a"], [Number(1)]), List([List([Text("a")]), Number(1)]);
            record != list && Fits(record) && Fits(list) && ValueKey(record) == ValueKey(list)
  {
    var record, list := Record(["a"], [Number(1)]), List([List([Text("a")]), Number(1)]);
    RecordKeyIs(record);
    assert NamesKey(["a"]).items == ValueKey(List([Text("a")])).items;
    assert FieldKeys([Number(1)]) == [ValueKey(Number(1))];
    assert ValueKey(record).items == ValueKey(list).items;
  }

  // ---- the records of a shard -----------------------------------------------------------------

  /** How bytes become Python strings: by decoding the string table, and in hexadecimal. */
  datatype Rendering = Rendering(text: Bytes -> string, hex: Bytes -> string)

  ghost predicate IsRendering(r: Rendering) {
    && (forall x, y :: r.text(x) == r.text(y) ==> x == y)
    && (forall x, y :: r.hex(x) == r.hex(y) ==> x == y)
  }

  /** Reading each byte as the character of that number is one. */
  lemma SomeRendering() returns (r: Rendering)
    ensures IsRendering(r)
  {
    var letters := (b: Bytes) => seq(|b|, k requires 0 <= k < |b| => b[k] as char);
    r := Rendering(letters, letters);
    forall x, y | letters(x) == letters(y) ensures x == y {
      assert |letters(x)| == |x| && |letters(y)| == |y|;
      forall k | 0 <= k < |x| ensures x[k] == y[k] { assert letters(x)[k] == letters(y)[k]; }
    }
  }

  function OfLocation(r: Rendering, l: Location): Value {
    Record(LOCATION_FIELDS, [List([Number(l.endLine), Number(l.endColumn)]),
                             List([Number(l.startLine), Number(l.startColumn)]), Text(r.text(l.uri))])
  }

  function OfRef(r: Rendering, x: Ref): Value {
    Record(REF_FIELDS, [Text(r.hex(x.use.container)), Number(x.use.kind as int), OfLocation(r, x.use.location),
                        Text(r.hex(x.symbol))])
  }

  function OfRelation(r: Rendering, x: Relation): Value {
    Record(["object", "predicate", "subject"],
           [Text(r.hex(x.object')), Number(x.relation as int), Text(r.hex(x.subject))])
  }

  function OfHeader(r: Rendering, h: Header): Value {
    Record(["header", "references", "supported_directives"],
           [Text(r.text(h.header)), Number(h.references), Number(h.directives)])
  }

  function OfHeaders(r: Rendering, hs: seq<Header>): Value {
    List(seq(|hs|, i requires 0 <= i < |hs| => OfHeader(r, hs[i])))
  }

  function OfSymbol(r: Rendering, s: Symbol): Value {
    var (n, u, t) := (s.naming, s.uses, s.texts);
    Record(SYMBOL_FIELDS,
           [OfLocation(r, u.declaration), Text(r.text(t.suffix)), OfLocation(r, u.definition),
            Text(r.text(t.documentation)), Number(u.flags as int), Text(r.hex(n.id)), OfHeaders(r, s.headers),
            Number(n.kind as int), Number(n.language as int), Text(r.text(n.name)), Number(u.references),
            Text(r.text(t.returnType)), Text(r.text(n.scope)), Text(r.text(t.signature)), Text(r.text(n.arguments)),
            Text(r.text(t.typeName))])
  }

  lemma LocationFits(r: Rendering, l: Location)
    ensures OfLocation(r, l).Record? && Fits(OfLocation(r, l))
  {
    var v := OfLocation(r, l);
    assert forall i :: 0 <= i < 3 ==> Fits(v.values[i]);
  }

  lemma RefFits(r: Rendering, x: Ref)
    ensures OfRef(r, x).Record? && Fits(OfRef(r, x))
  {
    LocationFits(r, x.use.location);
    var v := OfRef(r, x);
    assert forall i :: 0 <= i < 4 ==> Fits(v.values[i]);
  }

  lemma RelationFits(r: Rendering, x: Relation)
    ensures OfRelation(r, x).Record? && Fits(OfRelation(r, x))
  {
    var v := OfRelation(r, x);
    assert forall i :: 0 <= i < 3 ==> Fits(v.values[i]);
  }

  lemma LocationAlike(r: Rendering, l: Location, m: Location)
    ensures Alike(OfLocation(r, l), OfLocation(r, m))
  {
    var v, w := OfLocation(r, l), OfLocation(r, m);
    assert Alike(v.values[0], w.values[0]);
    assert Alike(v.values[1], w.values[1]);
    assert Alike(v.values[2], w.values[2]);
  }

  /** Two references have one key exactly when they are the same reference. */
  lemma RefKeys(r: Rendering, a: Ref, b: Ref)
    requires IsRendering(r)
    ensures Fits(OfRef(r, a)) && Fits(OfRef(r, b))
    ensures RecordKey(OfRef(r, a)) == RecordKey(OfRef(r, b)) <==> a == b
  {
    RefFits(r, a);
    RefFits(r, b);
    LocationAlike(r, a.use.location, b.use.location);
    var v, w := OfRef(r, a), OfRef(r, b);
    assert Alike(v, w) by {
      forall i | 0 <= i < 4 ensures Alike(v.values[i], w.values[i]) { }
    }
    if RecordKey(v) == RecordKey(w) {
      AlikeValues(v, w);
      assert v.values[0] == w.values[0] && v.values[1] == w.values[1] && v.values[2] == w.values[2] && v.values[3] == w.values[3];
    }
  }

  lemma RelationKeys(r: Rendering, a: Relation, b: Relation)
    requires IsRendering(r)
    ensures Fits(OfRelation(r, a)) && Fits(OfRelation(r, b))
    ensures RecordKey(OfRelation(r, a)) == RecordKey(OfRelation(r, b)) <==> a == b
  {
    var v, w := OfRelation(r, a), OfRelation(r, b);
    if RecordKey(v) == RecordKey(w) {
      AlikeValues(v, w);
      assert v.values[0] == w.values[0] && v.values[1] == w.values[1] && v.values[2] == w.values[2];
    }
  }

  lemma HeaderEquals(r: Rendering, a: Header, b: Header)
    requires IsRendering(r) && OfHeader(r, a) == OfHeader(r, b)
    ensures a == b
  {
    var v, w := OfHeader(r, a), OfHeader(r, b);
    assert v.values[0] == w.values[0] && v.values[1] == w.values[1] && v.values[2] == w.values[2];
  }

  lemma OneHeaderKeys(r: Rendering, a: Header, b: Header)
    requires IsRendering(r)
    ensures Fits(OfHeader(r, a)) && Fits(OfHeader(r, b))
    ensures RecordKey(OfHeader(r, a)) == RecordKey(OfHeader(r, b)) <==> a == b
  {
    var v, w := OfHeader(r, a), OfHeader(r, b);
    if RecordKey(v) == RecordKey(w) {
      AlikeValues(v, w);
      HeaderEquals(r, a, b);
    }
  }

  lemma HeadersEqual(r: Rendering, a: seq<Header>, b: seq<Header>)
    requires IsRendering(r) && OfHeaders(r, a) == OfHeaders(r, b)
    ensures a == b
  {
    assert |OfHeaders(r, a).items| == |a| && |OfHeaders(r, b).items| == |b|;
    forall i | 0 <= i < |a| ensures a[i] == b[i] {
      assert OfHeaders(r, a).items[i] == OfHeader(r, a[i]) && OfHeaders(r, b).items[i] == OfHeader(r, b[i]);
      HeaderEquals(r, a[i], b[i]);
    }
  }

  lemma LocationEquals(r: Rendering, a: Location, b: Location)
    requires IsRendering(r) && OfLocation(r, a) == OfLocation(r, b)
    ensures a == b
  {
    var v, w := OfLocation(r, a), OfLocation(r, b);
    assert v.values[0].items[0] == w.values[0].items[0] && v.values[0].items[1] == w.values[0].items[1];
    assert v.values[1].items[0] == w.values[1].items[0] && v.values[1].items[1] == w.values[1].items[1];
    assert v.values[2] == w.values[2];
  }

  lemma HeadersFit(r: Rendering, hs: seq<Header>)
    ensures Fits(OfHeaders(r, hs)) && OfHeaders(r, hs).List?
    ensures forall i :: 0 <= i < |OfHeaders(r, hs).items| ==> OfHeaders(r, hs).items[i].Record?
  {
    var items := OfHeaders(r, hs).items;
    forall i | 0 <= i < |items| ensures Fits(items[i]) { HeaderFits(r, hs[i]); }
  }

  lemma HeaderFits(r: Rendering, h: Header)
    ensures OfHeader(r, h).Record? && Fits(OfHeader(r, h))
  {
    var v := OfHeader(r, h);
    assert forall i :: 0 <= i < 3 ==> Fits(v.values[i]);
  }

  lemma SymbolFits(r: Rendering, s: Symbol)
    ensures OfSymbol(r, s).Record? && Fits(OfSymbol(r, s))
  {
    hide OfLocation, OfHeaders;
    var v := OfSymbol(r, s);
    LocationFits(r, s.uses.declaration);
    LocationFits(r, s.uses.definition);
    HeadersFit(r, s.headers);
    assert forall i :: 0 <= i < 16 ==> Fits(v.values[i]);
  }

  lemma SymbolsAlike(r: Rendering, a: Symbol, b: Symbol)
    ensures Alike(OfSymbol(r, a), OfSymbol(r, b))
  {
    hide OfLocation, OfHeaders;
    var v, w := OfSymbol(r, a), OfSymbol(r, b);
    LocationAlike(r, a.uses.declaration, b.uses.declaration);
    LocationAlike(r, a.uses.definition, b.uses.definition);
    HeadersAlike(r, a.headers, b.headers);
    forall i | 0 <= i < 16 ensures Alike(v.values[i], w.values[i]) { }
  }

  lemma HeadersAlike(r: Rendering, a: seq<Header>, b: seq<Header>)
    ensures Alike(OfHeaders(r, a), OfHeaders(r, b))
  {
  }

  lemma SymbolEquals(r: Rendering, a: Symbol, b: Symbol)
    requires IsRendering(r) && OfSymbol(r, a) == OfSymbol(r, b)
    ensures a == b
  {
    hide OfLocation, OfHeaders;
    var v, w := OfSymbol(r, a).values, OfSymbol(r, b).values;
    assert v[0] == w[0] && v[1] == w[1] && v[2] == w[2] && v[3] == w[3] && v[4] == w[4] && v[5] == w[5];
    assert v[6] == w[6] && v[7] == w[7] && v[8] == w[8] && v[9] == w[9] && v[10] == w[10];
    assert v[11] == w[11] && v[12] == w[12] && v[13] == w[13] && v[14] == w[14] && v[15] == w[15];
    LocationEquals(r, a.uses.declaration, b.uses.declaration);
    LocationEquals(r, a.uses.definition, b.uses.definition);
    HeadersEqual(r, a.headers, b.headers);
  }

  /** Two symbols have one key exactly when they are the same symbol. */
  lemma SymbolKeys(r: Rendering, a: Symbol, b: Symbol)
    requires IsRendering(r)
    ensures Fits(OfSymbol(r, a)) && Fits(OfSymbol(r, b))
    ensures RecordKey(OfSymbol(r, a)) == RecordKey(OfSymbol(r, b)) <==> a == b
  {
    hide OfSymbol, RecordKey, Fits, Alike;
    SymbolFits(r, a);
    SymbolFits(r, b);
    SymbolsAlike(r, a, b);
    assert ValueKey(OfSymbol(r, a)) == RecordKey(OfSymbol(r, a)) && ValueKey(OfSymbol(r, b)) == RecordKey(OfSymbol(r, b));
    if RecordKey(OfSymbol(r, a)) == RecordKey(OfSymbol(r, b)) {
      AlikeValues(OfSymbol(r, a), OfSymbol(r, b));
      SymbolEquals(r, a, b);
    }
  }
}
