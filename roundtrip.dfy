/** decode(encode(document)) for a document of one table: the text the
    encoder writes (its @schema line, its @defaults line, the header and
    one row per record) is read back by a fresh decoder into the same
    records, every column of the schema holding the record's value, as
    long as the columns a row leaves out to their defaults are its last
    ones.  A column left out in the middle shifts the values after it one
    column to the left (MiddleElisionShifts). */
module RoundTrip {
  import opened Wrappers
  import opened Text
  import opened Values
  import opened Splitting
  import opened Literals
  import E = Encoder
  import D = Decoder
  import DP = DecoderProperties
  import EP = EncoderProperties

  // ---------------------------------------------------------------------
  // Dicts

  lemma GetCons<V>(e: (string, V), r: Dict<V>, k: string)
    ensures Get([e] + r, k) == if e.0 == k then Some(e.1) else Get(r, k)
  {
    assert ([e] + r)[1..] == r;
  }

  /** A dict is its first entry before the rest. */
  lemma GetFirst<V>(d: Dict<V>, k: string)
    requires d != []
    ensures Get(d, k) == if d[0].0 == k then Some(d[0].1) else Get(d[1..], k)
  {
    assert d == [d[0]] + d[1..];
    GetCons(d[0], d[1..], k);
  }

  /** Inserting an entry with a new key adds exactly that entry. */
  lemma {:induction false} InsertGet<V>(x: (string, V), d: Dict<V>, k: string)
    requires !HasKey(d, x.0)
    ensures Get(E.Insert(x, d), k) == if k == x.0 then Some(x.1) else Get(d, k)
    decreases |d|
  {
    if d == [] {
      GetCons(x, [], k);
    } else {
      GetFirst(d, x.0);
      GetFirst(d, k);
      if StrLess(d[0].0, x.0) {
        InsertGet(x, d[1..], k);
        GetCons(d[0], E.Insert(x, d[1..]), k);
      } else {
        GetCons(x, d, k);
      }
    }
  }

  lemma DistinctCons<V>(e: (string, V), r: Dict<V>)
    requires !HasKey(r, e.0) && DistinctKeys(r)
    ensures DistinctKeys([e] + r)
  {
    assert forall j :: 0 <= j < |r| ==> r[j].0 != e.0;
    assert forall j :: 1 <= j < |[e] + r| ==> ([e] + r)[j] == r[j - 1];
  }

  lemma {:induction false} InsertDistinct<V>(x: (string, V), d: Dict<V>)
    requires !HasKey(d, x.0) && DistinctKeys(d)
    ensures DistinctKeys(E.Insert(x, d))
    decreases |d|
  {
    if d == [] {
    } else {
      GetFirst(d, x.0);
      assert d == [d[0]] + d[1..];
      if StrLess(d[0].0, x.0) {
        assert DistinctKeys(d[1..]) by {
          assert forall j :: 0 <= j < |d[1..]| ==> d[1..][j] == d[j + 1];
        }
        InsertDistinct(x, d[1..]);
        assert !HasKey(d[1..], d[0].0) by {
          assert forall j :: 0 <= j < |d[1..]| ==> d[1..][j].0 != d[0].0;
        }
        InsertGet(x, d[1..], d[0].0);
        DistinctCons(d[0], E.Insert(x, d[1..]));
      } else {
        DistinctCons(x, d);
      }
    }
  }

  /** sorted(d.items()) holds the same entries: every key reads the same. */
  lemma {:induction false} SortByKeyGet<V>(d: Dict<V>, k: string)
    requires DistinctKeys(d)
    ensures Get(E.SortByKey(d), k) == Get(d, k)
    decreases |d|
  {
    if d != [] {
      SortByKeyDistinctTail(d);
      SortByKeyGet(d[1..], d[0].0);
      SortByKeyGet(d[1..], k);
      InsertGet(d[0], E.SortByKey(d[1..]), k);
      GetFirst(d, k);
    }
  }

  /** The tail of a dict with distinct keys: distinct, without the first key. */
  lemma SortByKeyDistinctTail<V>(d: Dict<V>)
    requires d != [] && DistinctKeys(d)
    ensures DistinctKeys(d[1..]) && !HasKey(d[1..], d[0].0)
  {
    assert forall j :: 0 <= j < |d[1..]| ==> d[1..][j] == d[j + 1];
  }

  lemma {:induction false} SortByKeyDistinct<V>(d: Dict<V>)
    requires DistinctKeys(d)
    ensures DistinctKeys(E.SortByKey(d))
    decreases |d|
  {
    if d != [] {
      SortByKeyDistinctTail(d);
      SortByKeyDistinct(d[1..]);
      SortByKeyGet(d[1..], d[0].0);
      InsertDistinct(d[0], E.SortByKey(d[1..]));
    }
  }

  // ---------------------------------------------------------------------
  // From the joined parts to the decoder's lines

  /** The header part "\n" + header joins as an empty line and the header. */
  lemma {:induction false} JoinBreak(a: seq<string>, h: string, b: seq<string>)
    ensures Join("\n", a + ["\n" + h] + b) == Join("\n", a + ["", h] + b)
    decreases |a|
  {
    if a == [] {
      assert a + ["\n" + h] + b == ["\n" + h] + b;
      assert a + ["", h] + b == ["", h] + b;
      assert (["", h] + b)[1..] == [h] + b;
      if b != [] {
        assert (["\n" + h] + b)[1..] == b;
        assert ([h] + b)[1..] == b;
      }
    } else {
      var x := a + ["\n" + h] + b;
      var y := a + ["", h] + b;
      assert x[1..] == a[1..] + ["\n" + h] + b;
      assert y[1..] == a[1..] + ["", h] + b;
      JoinBreak(a[1..], h, b);
    }
  }

  /** A line that ends without whitespace is what rstrip() leaves of it. */
  predicate RightClean(s: string) {
    s == [] || !IsSpace(s[|s| - 1])
  }

  lemma RStripClean(s: string)
    requires RightClean(s)
    ensures RStrip(s) == s
  {
  }

  /** Parts without a newline, joined by newlines, come back as the lines. */
  lemma LinesOfParts(parts: seq<string>)
    requires |parts| >= 1
    requires forall k :: 0 <= k < |parts| ==> '\n' !in parts[k] && RightClean(parts[k])
    ensures D.Lines(Join("\n", parts)) == parts
  {
    SplitJoin(parts, '\n');
    var ls := D.Lines(Join("\n", parts));
    forall k | 0 <= k < |parts| ensures ls[k] == parts[k] {
      RStripClean(parts[k]);
    }
  }

  // ---------------------------------------------------------------------
  // Keys and metadata items

  /** A character a key can hold and still be read back from a metadata
      item or a schema entry: not one the splitter treats specially, not
      the key separator ':' and not a line break. */
  predicate KeyChar(c: char) {
    !Special(c, ',') && c != ':' && c != '\n'
  }

  /** A key (a column name) the decoder reads back unchanged. */
  predicate SafeKey(k: string) {
    k != [] && !IsSpace(k[0]) && !IsSpace(k[|k| - 1]) && forall i :: 0 <= i < |k| ==> KeyChar(k[i])
  }

  /** The type tags the encoder writes into the schema: lower-case words. */
  predicate TagText(t: string) {
    t != [] && forall i :: 0 <= i < |t| ==> 'a' <= t[i] <= 'z'
  }

  /** Every type tag is a lower-case word. */
  lemma TypeTagText(v: Value)
    ensures TagText(TypeTag(v))
  {
  }

  lemma TagPlain(t: string)
    requires TagText(t)
    ensures Plain(t, ',') && '\n' !in t && t != [] && !IsSpace(t[0]) && !IsSpace(t[|t| - 1])
  {
  }

  /** key + ":" holds no special character and ends in ':'. */
  lemma KeyColon(k: string)
    requires SafeKey(k)
    ensures Plain(k + ":", ',') && ClosedEnd(k + ":") && ':' !in k && '\n' !in k + ":"
    ensures Track(k + ":", ',', false, 0) == Some((false, 0))
  {
    var f := k + ":";
    assert forall i :: 0 <= i < |f| ==> f[i] == if i < |k| then k[i] else ':';
    TrackPlain(f, ',', false, 0);
  }

  /** key:literal is one field of a metadata line. */
  lemma ItemField(k: string, lit: string)
    requires SafeKey(k) && LiteralShape(lit)
    ensures SafeField(k + ":" + lit) && '\n' !in k + ":" + lit
  {
    var f := k + ":" + lit;
    KeyColon(k);
    TrackAppend(k + ":", lit, ',', false, 0);
    assert f == (k + ":") + lit;
    assert f[0] == k[0] && f[|f| - 1] == lit[|lit| - 1];
    assert forall i :: 0 <= i < |f| ==> f[i] == if i <= |k| then (k + ":")[i] else lit[i - |k| - 1];
  }

  /** key:tag is one field of the @schema line. */
  lemma SchemaItemField(k: string, t: string)
    requires SafeKey(k) && TagText(t)
    ensures SafeField(k + ":" + t) && '\n' !in k + ":" + t
  {
    var f := k + ":" + t;
    KeyColon(k);
    TagPlain(t);
    assert forall i :: 0 <= i < |f| ==> f[i] == if i <= |k| then (k + ":")[i] else t[i - |k| - 1];
    TrackPlain(f, ',', false, 0);
  }

  /** "@word[" + content + "]" has content between its brackets. */
  lemma MetaContent(word: string, c: string)
    requires '[' !in word
    ensures D.Content(word + "[" + c + "]") == Success(c)
  {
    DP.ContentBetween(word, c, "");
    assert word + "[" + c + "]" + "" == word + "[" + c + "]";
  }

  // ---------------------------------------------------------------------
  // The @schema line

  /** A schema whose names are safe keys and whose tags are type tags. */
  predicate SafeSchema(schema: Schema) {
    forall j :: 0 <= j < |schema| ==> SafeKey(schema[j].0) && TagText(schema[j].1)
  }

  /** The items of a schema line, one per column. */
  predicate SchemaItems(items: seq<string>, schema: Schema) {
    |items| == |schema| && SafeSchema(schema) &&
    forall k :: 0 <= k < |items| ==> items[k] == schema[k].0 + ":" + schema[k].1
  }

  lemma SchemaItemsTail(items: seq<string>, schema: Schema)
    requires items != [] && SchemaItems(items, schema)
    ensures SchemaItems(items[1..], schema[1..])
  {
    assert forall j :: 0 <= j < |items| - 1 ==> items[1..][j] == items[j + 1] && schema[1..][j] == schema[j + 1];
  }

  /** One schema item key:tag is read as the column (key, tag). */
  lemma SchemaItemRead(k: string, t: string, rest: seq<string>, acc: Schema)
    requires SafeKey(k) && TagText(t)
    ensures D.SchemaFrom([k + ":" + t] + rest, acc) == D.SchemaFrom(rest, acc + [(k, t)])
  {
    KeyColon(k);
    TagPlain(t);
    DP.KeyValueParts(k, t);
    StripNoSpaceEnds(k);
    StripNoSpaceEnds(t);
    assert ([k + ":" + t] + rest)[1..] == rest;
  }

  lemma {:induction false} SchemaFromItems(items: seq<string>, schema: Schema, acc: Schema)
    requires SchemaItems(items, schema)
    ensures D.SchemaFrom(items, acc) == acc + schema
    decreases |items|
  {
    if items == [] {
      assert acc + schema == acc;
    } else {
      SchemaItemsTail(items, schema);
      assert items == [schema[0].0 + ":" + schema[0].1] + items[1..];
      SchemaItemRead(schema[0].0, schema[0].1, items[1..], acc);
      var next := acc + [schema[0]];
      SchemaFromItems(items[1..], schema[1..], next);
      HeadSplit(acc, schema);
    }
  }

  lemma ConcatAssoc<T>(a: seq<T>, b: seq<T>, c: seq<T>)
    ensures (a + b) + c == a + (b + c)
  {
  }

  /** Every item of a @schema line is one field. */
  lemma SchemaEntriesSafe(schema: Schema)
    requires SafeSchema(schema)
    ensures forall k :: 0 <= k < |schema| ==> SafeField(E.SchemaEntries(schema)[k])
  {
    var es := E.SchemaEntries(schema);
    forall k | 0 <= k < |es| ensures SafeField(es[k]) {
      SchemaItemField(schema[k].0, schema[k].1);
    }
  }

  /** The fields of a @schema line split back into its items. */
  lemma SchemaSplitBack(schema: Schema, es: seq<string>)
    requires SafeSchema(schema) && es == E.SchemaEntries(schema)
    ensures SplitSmart(Join(", ", es), ',') == es
  {
    SchemaEntriesSafe(schema);
    JoinSplit(es);
  }

  lemma SchemaContent(schema: Schema, es: seq<string>)
    requires es == E.SchemaEntries(schema)
    ensures D.Content(E.SchemaLine(schema)) == Success(Join(", ", es))
  {
    assert E.SchemaLine(schema) == "@schema" + "[" + Join(", ", es) + "]";
    MetaContent("@schema", Join(", ", es));
  }

  /** The @schema line reads back as the schema written. */
  lemma SchemaLineRoundTrip(schema: Schema)
    requires SafeSchema(schema)
    ensures D.SchemaLine(E.SchemaLine(schema)) == Success(schema)
  {
    var es := E.SchemaEntries(schema);
    SchemaContent(schema, es);
    SchemaSplitBack(schema, es);
    assert SchemaItems(es, schema);
    SchemaFromItems(es, schema, []);
    assert [] + schema == schema;
  }

  // ---------------------------------------------------------------------
  // The @defaults line

  /** A default the @defaults line can carry and read back: a safe key and a
      hashable value with a literal. */
  predicate SafeDefault(e: (string, Value)) {
    SafeKey(e.0) && RowSafe(e.1) && IsHashable(e.1)
  }

  predicate SafeDefaults(d: Dict<Value>) {
    forall j :: 0 <= j < |d| ==> SafeDefault(d[j])
  }

  lemma SafeDefaultsTail(d: Dict<Value>)
    requires d != [] && SafeDefaults(d)
    ensures SafeDefaults(d[1..])
  {
    assert forall j :: 0 <= j < |d| - 1 ==> d[1..][j] == d[j + 1];
  }

  lemma SafeDefaultsCons(e: (string, Value), d: Dict<Value>)
    requires SafeDefault(e) && SafeDefaults(d)
    ensures SafeDefaults([e] + d)
  {
    assert forall j :: 1 <= j < |d| + 1 ==> ([e] + d)[j] == d[j - 1];
  }

  lemma {:induction false} InsertSafe(x: (string, Value), d: Dict<Value>)
    requires SafeDefault(x) && SafeDefaults(d)
    ensures SafeDefaults(E.Insert(x, d))
    decreases |d|
  {
    if d == [] {
    } else if StrLess(d[0].0, x.0) {
      SafeDefaultsTail(d);
      InsertSafe(x, d[1..]);
      SafeDefaultsCons(d[0], E.Insert(x, d[1..]));
    } else {
      SafeDefaultsCons(x, d);
    }
  }

  lemma {:induction false} SortByKeySafe(d: Dict<Value>)
    requires SafeDefaults(d)
    ensures SafeDefaults(E.SortByKey(d))
    decreases |d|
  {
    if d != [] {
      SafeDefaultsTail(d);
      SortByKeySafe(d[1..]);
      InsertSafe(d[0], E.SortByKey(d[1..]));
    }
  }

  /** The items of a @defaults line: key:literal, one per entry, in order. */
  predicate DefaultItems(items: seq<string>, p: Dict<Value>) {
    |items| == |p| && SafeDefaults(p) &&
    forall k :: 0 <= k < |items| ==> items[k] == p[k].0 + ":" + FormatQuoted(p[k].1)
  }

  lemma {:induction false} DefaultEntriesAt(p: Dict<Value>)
    requires SafeDefaults(p)
    ensures DefaultItems(E.DefaultEntries(p), p)
    decreases |p|
  {
    if p != [] {
      var q := p[..|p| - 1];
      assert SafeDefaults(q) by {
        assert forall j :: 0 <= j < |q| ==> q[j] == p[j];
      }
      DefaultEntriesAt(q);
      assert forall j :: 0 <= j < |q| ==> q[j] == p[j];
    }
  }

  lemma DefaultItemsTail(items: seq<string>, p: Dict<Value>)
    requires items != [] && DefaultItems(items, p)
    ensures DefaultItems(items[1..], p[1..])
  {
    SafeDefaultsTail(p);
    assert forall j :: 0 <= j < |items| - 1 ==> items[1..][j] == items[j + 1] && p[1..][j] == p[j + 1];
  }

  /** Every item of a @defaults line is one field. */
  lemma DefaultItemsSafe(items: seq<string>, p: Dict<Value>)
    requires DefaultItems(items, p)
    ensures forall k :: 0 <= k < |items| ==> SafeField(items[k])
  {
    forall k | 0 <= k < |items| ensures SafeField(items[k]) {
      DefaultLiteral(p[k].1);
      ItemField(p[k].0, FormatQuoted(p[k].1));
    }
  }

  /** A fresh decoder (no dictionary) substitutes nothing. */
  lemma SubstituteFresh(x: Value)
    ensures D.Substitute(x, []) == x
  {
    var none: Dict<string> := [];
    assert forall k :: !HasKey(none, k);
  }

  /** A fresh decoder reads a default's literal back as the value. */
  lemma DefaultValueRead(v: Value)
    requires RowSafe(v) && IsHashable(v)
    ensures D.FieldValue(FormatQuoted(v), []) == v
  {
    DefaultLiteral(v);
    SubstituteFresh(v);
    StripNoSpaceEnds(FormatQuoted(v));
  }

  lemma PutNew<V>(d: Dict<V>, k: string, v: V)
    requires !HasKey(d, k)
    ensures Put(d, k, v) == d + [(k, v)]
  {
  }

  /** key:text splits into the key and the text. */
  lemma ItemParts(k: string, text: string)
    requires SafeKey(k)
    ensures ':' in k + ":" + text
    ensures Strip(D.KeyPart(k + ":" + text)) == k && D.ValuePart(k + ":" + text) == text
  {
    KeyColon(k);
    DP.KeyValueParts(k, text);
    StripNoSpaceEnds(k);
  }

  /** One step of the defaults fold over an item that holds ':'. */
  lemma DefaultsFromCons(items: seq<string>, dictionary: Dict<string>, acc: Dict<Value>, k: string, v: Value)
    requires items != [] && ':' in items[0]
    requires Strip(D.KeyPart(items[0])) == k && D.FieldValue(D.ValuePart(items[0]), dictionary) == v
    ensures D.DefaultsFrom(items, dictionary, acc) == D.DefaultsFrom(items[1..], dictionary, Put(acc, k, v))
  {
  }

  /** The first item of a @defaults line adds its entry. */
  lemma DefaultItemRead(items: seq<string>, p: Dict<Value>, acc: Dict<Value>)
    requires items != [] && DefaultItems(items, p) && !HasKey(acc, p[0].0)
    ensures D.DefaultsFrom(items, [], acc) == D.DefaultsFrom(items[1..], [], acc + [p[0]])
  {
    var (k, v) := p[0];
    assert items[0] == k + ":" + FormatQuoted(v);
    ItemParts(k, FormatQuoted(v));
    DefaultValueRead(v);
    DefaultsFromCons(items, [], acc, k, v);
    PutNew(acc, k, v);
  }

  /** None of the keys of p is in acc. */
  predicate Fresh(acc: Dict<Value>, p: Dict<Value>) {
    forall j :: 0 <= j < |p| ==> !HasKey(acc, p[j].0)
  }

  lemma FreshStep(acc: Dict<Value>, p: Dict<Value>)
    requires p != [] && Fresh(acc, p) && DistinctKeys(p)
    ensures Fresh(acc + [p[0]], p[1..]) && DistinctKeys(p[1..])
  {
    PutNew(acc, p[0].0, p[0].1);
    forall j | 0 <= j < |p| - 1 ensures !HasKey(acc + [p[0]], p[1..][j].0) {
      assert p[1..][j] == p[j + 1];
      assert Get(acc + [p[0]], p[j + 1].0) == Get(acc, p[j + 1].0);
    }
    assert forall i, j :: 0 <= i < j < |p| - 1 ==> p[1..][i] == p[i + 1] && p[1..][j] == p[j + 1];
  }

  lemma {:induction false} DefaultsFromItems(items: seq<string>, p: Dict<Value>, acc: Dict<Value>)
    requires DefaultItems(items, p) && DistinctKeys(p) && Fresh(acc, p)
    ensures D.DefaultsFrom(items, [], acc) == acc + p
    decreases |items|
  {
    if items == [] {
      assert acc + p == acc;
    } else {
      var next := acc + [p[0]];
      DefaultItemsTail(items, p);
      FreshStep(acc, p);
      DefaultItemRead(items, p, acc);
      DefaultsFromItems(items[1..], p[1..], next);
      HeadSplit(acc, p);
    }
  }

  lemma HeadSplit<T>(a: seq<T>, p: seq<T>)
    requires p != []
    ensures (a + [p[0]]) + p[1..] == a + p
  {
    assert [p[0]] + p[1..] == p;
    ConcatAssoc(a, [p[0]], p[1..]);
  }

  lemma DefaultsContent(d: Dict<Value>, es: seq<string>)
    requires es == E.DefaultEntries(E.SortByKey(d))
    ensures D.Content(E.DefaultsLine(d)) == Success(Join(", ", es))
  {
    assert E.DefaultsLine(d) == "@defaults" + "[" + Join(", ", es) + "]";
    MetaContent("@defaults", Join(", ", es));
  }

  /** The items of the @defaults line split back out of it. */
  lemma DefaultsSplitBack(d: Dict<Value>, es: seq<string>)
    requires SafeDefaults(d) && es == E.DefaultEntries(E.SortByKey(d))
    ensures DefaultItems(es, E.SortByKey(d))
    ensures SplitSmart(Join(", ", es), ',') == es
  {
    SortByKeySafe(d);
    DefaultEntriesAt(E.SortByKey(d));
    DefaultItemsSafe(es, E.SortByKey(d));
    JoinSplit(es);
  }

  /** The @defaults line read by a fresh decoder gives the defaults in key
      order. */
  lemma DefaultsLineRoundTrip(d: Dict<Value>)
    requires DistinctKeys(d) && SafeDefaults(d)
    ensures D.DefaultsLine(E.DefaultsLine(d), []) == Success(E.SortByKey(d))
  {
    var p := E.SortByKey(d);
    var es := E.DefaultEntries(p);
    DefaultsContent(d, es);
    DefaultsSplitBack(d, es);
    SortByKeyDistinct(d);
    DefaultsFromItems(es, p, []);
    assert [] + p == p;
  }

  /** ... and every key reads as in the defaults written. */
  lemma DefaultsLineGet(d: Dict<Value>, k: string)
    requires DistinctKeys(d) && SafeDefaults(d)
    ensures D.DefaultsLine(E.DefaultsLine(d), []).Success?
    ensures Get(D.DefaultsLine(E.DefaultsLine(d), []).value, k) == Get(d, k)
  {
    DefaultsLineRoundTrip(d);
    SortByKeyGet(d, k);
  }

  // ---------------------------------------------------------------------
  // Records

  /** The columns before k are written and every column from k on is left
      to its default: the elided columns form a suffix of the schema. */
  predicate ElidedFrom(rec: Record, schema: Schema, defaults: Dict<Value>, k: nat) {
    k <= |schema| &&
    (forall i :: 0 <= i < k ==> !E.Elided(rec, schema[i].0, defaults)) &&
    (forall i :: k <= i < |schema| ==> E.Elided(rec, schema[i].0, defaults))
  }

  /** The values a row writes have literals that read back. */
  predicate WrittenSafe(rec: Record, schema: Schema, k: nat) {
    k <= |schema| && forall i :: 0 <= i < k ==> RowSafe(E.FieldValue(rec, schema[i].0))
  }

  /** The row's written fields, in schema order. */
  predicate RowOf(fs: seq<string>, rec: Record, schema: Schema, k: nat) {
    k <= |schema| && |fs| == k && forall i :: 0 <= i < k ==> fs[i] == FormatValue(E.FieldValue(rec, schema[i].0))
  }

  lemma RowFieldsSafe(fs: seq<string>, rec: Record, schema: Schema, k: nat)
    requires RowOf(fs, rec, schema, k) && WrittenSafe(rec, schema, k)
    ensures forall i :: 0 <= i < |fs| ==> LiteralShape(fs[i])
  {
    forall i | 0 <= i < |fs| ensures LiteralShape(fs[i]) {
      RowLiteral(E.FieldValue(rec, schema[i].0));
    }
  }

  /** The decoder splits a row back into the fields the encoder joined. */
  lemma RowFieldsBack(fs: seq<string>)
    requires forall i :: 0 <= i < |fs| ==> LiteralShape(fs[i])
    ensures D.RowFields(Join(", ", fs)) == fs
  {
    JoinSplit(fs);
    if fs != [] {
      JoinFirst(", ", fs);
    }
  }

  /** A fresh decoder parses each written field back as the record's value. */
  lemma RowValuesBack(fs: seq<string>, rec: Record, schema: Schema, k: nat, i: nat)
    requires RowOf(fs, rec, schema, k) && WrittenSafe(rec, schema, k) && i < k
    ensures D.RowValues(fs, [])[i] == E.FieldValue(rec, schema[i].0)
  {
    DP.RowValueAt(fs, [], i);
    RowValueRead(E.FieldValue(rec, schema[i].0));
  }

  /** A fresh decoder reads a row literal back as the value. */
  lemma RowValueRead(v: Value)
    requires RowSafe(v)
    ensures D.FieldValue(FormatValue(v), []) == v
  {
    RowLiteral(v);
    SubstituteFresh(v);
    StripNoSpaceEnds(FormatValue(v));
  }

  /** The row the encoder writes for a record whose elided columns form a
      suffix: its fields are the literals of the columns before it. */
  lemma RowWritten(rec: Record, schema: Schema, defaults: Dict<Value>, k: nat)
    requires ElidedFrom(rec, schema, defaults, k)
    ensures RowOf(E.RowFields(rec, schema, defaults), rec, schema, k)
  {
    EP.RowPrefix(rec, schema, defaults, k);
  }

  /** A written column reads back as the record's value. */
  lemma RecordWritten(rec: Record, schema: Schema, defaults: Dict<Value>, dd: Dict<Value>, k: nat, j: nat)
    requires DistinctKeys(schema) && ElidedFrom(rec, schema, defaults, k) && WrittenSafe(rec, schema, k) && j < k
    ensures Get(D.RecordOf(Join(", ", E.RowFields(rec, schema, defaults)), schema, dd, []), schema[j].0) ==
      Some(E.FieldValue(rec, schema[j].0))
  {
    var fs := E.RowFields(rec, schema, defaults);
    var line := Join(", ", fs);
    RowWritten(rec, schema, defaults, k);
    RowFieldsSafe(fs, rec, schema, k);
    RowFieldsBack(fs);
    RowValuesBack(fs, rec, schema, k, j);
    DP.RecordValue(line, schema, dd, [], j);
  }

  /** A column left out reads back as the decoded default, which equals the
      record's value. */
  lemma RecordDefaulted(rec: Record, schema: Schema, defaults: Dict<Value>, dd: Dict<Value>, k: nat, j: nat)
    requires DistinctKeys(schema) && ElidedFrom(rec, schema, defaults, k) && WrittenSafe(rec, schema, k)
    requires k <= j < |schema| && Get(dd, schema[j].0) == Get(defaults, schema[j].0)
    ensures var got := Get(D.RecordOf(Join(", ", E.RowFields(rec, schema, defaults)), schema, dd, []), schema[j].0);
      got == Get(defaults, schema[j].0) && got.Some? && PyEq(E.FieldValue(rec, schema[j].0), got.value)
  {
    var fs := E.RowFields(rec, schema, defaults);
    var line := Join(", ", fs);
    RowWritten(rec, schema, defaults, k);
    RowFieldsSafe(fs, rec, schema, k);
    RowFieldsBack(fs);
    DP.RecordDefault(line, schema, dd, [], j);
  }

  /** The encoder writes only b's value for the record of the example below. */
  lemma MiddleElisionRow()
    ensures E.RowFields([("a", Int(0)), ("b", Int(7))], [("a", "int"), ("b", "int")], [("a", Int(0))]) == ["7"]
  {
    var schema: Schema := [("a", "int"), ("b", "int")];
    var rec: Record := [("a", Int(0)), ("b", Int(7))];
    var defaults: Dict<Value> := [("a", Int(0))];
    assert E.FieldValue(rec, "a") == Int(0) && E.FieldValue(rec, "b") == Int(7);
    assert E.Elided(rec, "a", defaults);
    assert !E.Elided(rec, "b", defaults);
    assert schema[..1] == [("a", "int")];
    assert [("a", "int")][..0] == [];
    assert E.RowFields(rec, schema[..1], defaults) == [];
    assert FormatValue(Int(7)) == "7";
  }

  /** A column left out in the middle of the schema shifts the values after
      it: with two columns a and b, a elided and b written, the decoder puts
      b's value under a. */
  lemma MiddleElisionShifts()
    ensures var schema: Schema := [("a", "int"), ("b", "int")];
      var rec: Record := [("a", Int(0)), ("b", Int(7))];
      var defaults: Dict<Value> := [("a", Int(0))];
      E.RowFields(rec, schema, defaults) == ["7"] &&
      Get(D.RecordOf(Join(", ", E.RowFields(rec, schema, defaults)), schema, defaults, []), "a") == Some(Int(7))
  {
    var schema: Schema := [("a", "int"), ("b", "int")];
    var defaults: Dict<Value> := [("a", Int(0))];
    MiddleElisionRow();
    assert Join(", ", ["7"]) == "7";
    assert DistinctKeys(schema);
    RowFieldsBack(["7"]);
    RowValuesBackAt("7", Int(7));
    DP.RecordValue("7", schema, defaults, [], 0);
  }

  lemma RowValuesBackAt(f: string, v: Value)
    requires RowSafe(v) && f == FormatValue(v)
    ensures D.RowValues([f], [])[0] == v
  {
    DP.RowValueAt([f], [], 0);
    RowValueRead(v);
  }

  // ---------------------------------------------------------------------
  // The header and the rows

  /** A character that is in none of the parts nor the separator is not in
      their join. */
  lemma {:induction false} JoinFree(sep: string, parts: seq<string>, c: char)
    requires c !in sep && forall k :: 0 <= k < |parts| ==> c !in parts[k]
    ensures c !in Join(sep, parts)
    decreases |parts|
  {
    if |parts| > 1 {
      assert forall k :: 0 <= k < |parts| - 1 ==> parts[1..][k] == parts[k + 1];
      JoinFree(sep, parts[1..], c);
    }
  }

  /** The text of a row the decoder reads back as one data line: not
      blank, no whitespace at its ends, no '@' in front, no ':' at its end
      (so it is not a header) and no line break. */
  predicate RowText(row: string) {
    row != [] && !IsSpace(row[0]) && !IsSpace(row[|row| - 1]) && row[0] != '@' && row[|row| - 1] != ':' && '\n' !in row
  }

  /** The indentation of a row is stripped off. */
  lemma StripIndent(row: string)
    requires row != [] && !IsSpace(row[0]) && !IsSpace(row[|row| - 1])
    ensures Strip("  " + row) == row
  {
    assert ("  " + row)[1..] == " " + row;
    assert (" " + row)[1..] == row;
    assert LStrip("  " + row) == LStrip(row);
    StripNoSpaceEnds(row);
  }

  lemma RowIsData(row: string)
    requires RowText(row)
    ensures D.IsDataLine(row)
  {
    DP.NotAtStart(row);
    EndsWithLast(row, "):");
  }

  lemma EndsWithLast(s: string, p: string)
    requires p != []
    ensures EndsWith(s, p) ==> s[|s| - 1] == p[|p| - 1]
  {
    if EndsWith(s, p) {
      assert s[|s| - 1] == s[|s| - |p|..][|p| - 1];
    }
  }

  /** From line i on, the lines are the rows, each indented by two spaces. */
  predicate IndentedAt(lines: seq<string>, i: nat, rows: seq<string>) {
    i + |rows| <= |lines| && forall k :: 0 <= k < |rows| ==> lines[i + k] == "  " + rows[k] && RowText(rows[k])
  }

  lemma IndentedTail(lines: seq<string>, i: nat, rows: seq<string>)
    requires rows != [] && IndentedAt(lines, i, rows)
    ensures IndentedAt(lines, i + 1, rows[1..])
  {
    assert forall k :: 0 <= k < |rows| - 1 ==> rows[1..][k] == rows[k + 1] && i + 1 + k == i + (k + 1);
  }

  lemma IndentedHead(lines: seq<string>, i: nat, rows: seq<string>)
    requires rows != [] && IndentedAt(lines, i, rows)
    ensures i < |lines| && rows[0] == Strip(lines[i]) && D.IsDataLine(rows[0])
  {
    assert lines[i + 0] == "  " + rows[0];
    StripIndent(rows[0]);
    RowIsData(rows[0]);
  }

  /** Indented rows are a run of data lines of the decoder. */
  lemma {:induction false} IndentedSpan(lines: seq<string>, i: nat, rows: seq<string>)
    requires IndentedAt(lines, i, rows)
    ensures DP.SpanOf(lines, i, rows)
    decreases |rows|
  {
    if rows != [] {
      IndentedHead(lines, i, rows);
      IndentedTail(lines, i, rows);
      IndentedSpan(lines, i + 1, rows[1..]);
    }
  }

  /** A header naming the row count, followed by the rows up to the end. */
  lemma HeaderRows(lines: seq<string>, i: nat, name: string, rows: seq<string>)
    requires DP.TableName(name) && i + 1 + |rows| == |lines|
    requires lines[i] == E.Header(name, |rows|) && IndentedAt(lines, i + 1, rows)
    ensures DP.HeaderRun(lines, i, |rows|, rows) && D.HeaderName(Strip(lines[i])) == name
  {
    DP.HeaderLine(name, |rows|);
    RowsRun(lines, i + 1, rows);
  }

  /** The rows read after a header are the indented rows, to the end. */
  lemma RowsRun(lines: seq<string>, i: nat, rows: seq<string>)
    requires IndentedAt(lines, i, rows) && i + |rows| == |lines|
    ensures D.RowsFrom(lines, i, |rows|, []) == (|lines|, rows)
  {
    IndentedSpan(lines, i, rows);
    DP.RowsConsecutive(lines, i, rows, |rows|, []);
    assert [] + rows == rows;
  }

  /** The blank line, the header and the rows at the end of the text. */
  lemma TableEnd(lines: seq<string>, i: nat, st: D.DecodeState, name: string, rows: seq<string>)
    requires DP.TableName(name) && i + 2 + |rows| == |lines|
    requires lines[i] == "" && lines[i + 1] == E.Header(name, |rows|) && IndentedAt(lines, i + 2, rows)
    ensures D.StepAt(lines, i, st) == Success((i + 1, st))
    ensures DP.HeaderRun(lines, i + 1, |rows|, rows) && D.HeaderName(Strip(lines[i + 1])) == name
  {
    assert DP.Ignored(lines[i]);
    DP.IgnoredStep(lines, i, st);
    HeaderRows(lines, i + 1, name, rows);
  }

  /** The scan over a table's head, from the steps of its lines: the
      @schema line, the @defaults line when there is one (it ends at i1)
      and the @queryable line when there is one (it ends at m). */
  lemma HeadChain(lines: seq<string>, i1: nat, m: nat, st0: D.DecodeState, st1: D.DecodeState, st2: D.DecodeState)
    requires 1 <= i1 <= m < |lines|
    requires D.StepAt(lines, 0, st0) == Success((1, st1))
    requires i1 == 1 ==> st2 == st1
    requires i1 != 1 ==> i1 == 2 && D.StepAt(lines, 1, st1) == Success((2, st2))
    requires m != i1 ==> m == i1 + 1 && D.StepAt(lines, i1, st2) == Success((m, st2))
    ensures D.DecodeFrom(lines, 0, st0) == D.DecodeFrom(lines, m, st2)
  {
    DP.DecodeStep(lines, 0, st0, (1, st1));
    if i1 != 1 {
      DP.DecodeStep(lines, 1, st1, (2, st2));
    }
    if m != i1 {
      DP.DecodeStep(lines, i1, st2, (m, st2));
    }
  }

  /** The scan over the blank line, the header and its rows. */
  lemma TailChain(lines: seq<string>, m: nat, st: D.DecodeState, name: string, rows: seq<string>)
    requires m + 1 < |lines|
    requires D.StepAt(lines, m, st) == Success((m + 1, st))
    requires DP.HeaderRun(lines, m + 1, |rows|, rows) && D.HeaderName(Strip(lines[m + 1])) == name
    ensures D.DecodeFrom(lines, m, st) ==
      (Success(Put(st.result, name, D.RecordsOf(rows, st.schema, st.defaults, st.dictionary))), st.dictionary)
  {
    DP.DecodeStep(lines, m, st, (m + 1, st));
    DP.HeaderTableEnd(lines, m + 1, st, |rows|, rows);
  }

  // ---------------------------------------------------------------------
  // The metadata lines

  /** A metadata line "@word[content]" starts with its word and ends
      with ']'. */
  lemma MetaLine(word: string, c: string)
    requires word != [] && word[0] == '@'
    ensures var l := word + "[" + c + "]";
      StartsWith(l, word) && StartsWith(l, "@") && l[0] == '@' && l[|l| - 1] == ']'
  {
    var l := word + "[" + c + "]";
    assert l[..|word|] == word;
    assert l[..1] == "@";
  }

  /** A metadata line is unchanged by strip(). */
  lemma MetaStrip(word: string, c: string)
    requires word != [] && word[0] == '@'
    ensures Strip(word + "[" + c + "]") == word + "[" + c + "]"
  {
    MetaLine(word, c);
    StripNoSpaceEnds(word + "[" + c + "]");
  }

  /** The character at position j of a line that starts with w. */
  lemma PrefixAt(l: string, w: string, j: nat)
    requires j < |w|
    ensures StartsWith(l, w) ==> j < |l| && l[j] == w[j]
  {
    if StartsWith(l, w) {
      assert l[..|w|][j] == l[j];
    }
  }

  /** A metadata line does not start with a word that differs from its own
      at position j. */
  lemma MetaNotPrefix(word: string, c: string, w: string, j: nat)
    requires word != [] && word[0] == '@' && j < |word| && j < |w| && word[j] != w[j]
    ensures !StartsWith(word + "[" + c + "]", w)
  {
    MetaLine(word, c);
    PrefixAt(word + "[" + c + "]", word, j);
    PrefixAt(word + "[" + c + "]", w, j);
  }

  /** A stripped '@' line that is no @dict, @schema or @defaults line is
      one the scan steps over. */
  lemma OtherMetaIgnored(l: string)
    requires Strip(l) == l && StartsWith(l, "@")
    requires !StartsWith(l, "@dict") && !StartsWith(l, "@schema") && !StartsWith(l, "@defaults")
    ensures DP.Ignored(l)
  {
  }

  /** The written @schema line: left alone by strip(), not a @dict line. */
  lemma SchemaLineFacts(schema: Schema)
    requires SafeSchema(schema)
    ensures var l := E.SchemaLine(schema);
      Strip(l) == l && StartsWith(l, "@schema") && !StartsWith(l, "@dict")
  {
    var c := Join(", ", E.SchemaEntries(schema));
    assert E.SchemaLine(schema) == "@schema" + "[" + c + "]";
    MetaLine("@schema", c);
    MetaNotPrefix("@schema", c, "@dict", 1);
    MetaStrip("@schema", c);
  }

  /** A @defaults line: left alone by strip(), neither a @dict nor a
      @schema line. */
  lemma DefaultsMeta(c: string)
    ensures var l := "@defaults" + "[" + c + "]";
      Strip(l) == l && StartsWith(l, "@defaults") && !StartsWith(l, "@dict") && !StartsWith(l, "@schema")
  {
    MetaLine("@defaults", c);
    MetaNotPrefix("@defaults", c, "@dict", 2);
    MetaNotPrefix("@defaults", c, "@schema", 1);
    MetaStrip("@defaults", c);
  }

  lemma DefaultsLineFacts(d: Dict<Value>)
    ensures var l := E.DefaultsLine(d);
      Strip(l) == l && StartsWith(l, "@defaults") && !StartsWith(l, "@dict") && !StartsWith(l, "@schema")
  {
    var c := Join(", ", E.DefaultEntries(E.SortByKey(d)));
    assert E.DefaultsLine(d) == "@defaults" + "[" + c + "]";
    DefaultsMeta(c);
  }

  /** The @queryable line is one the scan steps over. */
  lemma QueryableLineFacts(name: string)
    ensures DP.Ignored("@queryable[" + name + "]")
  {
    assert "@queryable[" + name + "]" == "@queryable" + "[" + name + "]";
    MetaLine("@queryable", name);
    MetaNotPrefix("@queryable", name, "@dict", 1);
    MetaNotPrefix("@queryable", name, "@schema", 1);
    MetaNotPrefix("@queryable", name, "@defaults", 1);
    MetaStrip("@queryable", name);
    OtherMetaIgnored("@queryable" + "[" + name + "]");
  }

  lemma SchemaLineStep(lines: seq<string>, i: nat, st: D.DecodeState, schema: Schema)
    requires i < |lines| && StartsWith(Strip(lines[i]), "@schema") && !StartsWith(Strip(lines[i]), "@dict")
    requires D.SchemaLine(Strip(lines[i])) == Success(schema)
    ensures D.StepAt(lines, i, st) == Success((i + 1, st.(schema := schema)))
  {
    DP.NoMetadata(Strip(lines[i]));
  }

  lemma DefaultsLineStep(lines: seq<string>, i: nat, st: D.DecodeState, d: Dict<Value>)
    requires i < |lines| && StartsWith(Strip(lines[i]), "@defaults")
    requires !StartsWith(Strip(lines[i]), "@dict") && !StartsWith(Strip(lines[i]), "@schema")
    requires D.DefaultsLine(Strip(lines[i]), st.dictionary) == Success(d)
    ensures D.StepAt(lines, i, st) == Success((i + 1, st.(defaults := d)))
  {
    DP.NoMetadata(Strip(lines[i]));
  }

  /** The @schema line sets the schema. */
  lemma SchemaStep(lines: seq<string>, i: nat, st: D.DecodeState, schema: Schema)
    requires i < |lines| && lines[i] == E.SchemaLine(schema) && SafeSchema(schema)
    ensures D.StepAt(lines, i, st) == Success((i + 1, st.(schema := schema)))
  {
    SchemaLineRoundTrip(schema);
    SchemaLineFacts(schema);
    SchemaLineStep(lines, i, st, schema);
  }

  /** The @defaults line, read without a dictionary, sets the defaults. */
  lemma DefaultsStep(lines: seq<string>, i: nat, st: D.DecodeState, d: Dict<Value>)
    requires i < |lines| && lines[i] == E.DefaultsLine(d) && DistinctKeys(d) && SafeDefaults(d) && st.dictionary == []
    ensures D.StepAt(lines, i, st) == Success((i + 1, st.(defaults := E.SortByKey(d))))
  {
    DefaultsLineRoundTrip(d);
    DefaultsLineFacts(d);
    DefaultsLineStep(lines, i, st, E.SortByKey(d));
  }

  /** The @queryable line changes nothing. */
  lemma QueryableStep(lines: seq<string>, i: nat, st: D.DecodeState, name: string)
    requires i < |lines| && lines[i] == "@queryable[" + name + "]"
    ensures D.StepAt(lines, i, st) == Success((i + 1, st))
  {
    QueryableLineFacts(name);
    DP.IgnoredStep(lines, i, st);
  }

  // ---------------------------------------------------------------------
  // One table

  /** The rows as the encoder writes them, each indented by two spaces. */
  function Indent(rows: seq<string>): (r: seq<string>)
    ensures |r| == |rows| && forall k :: 0 <= k < |rows| ==> r[k] == "  " + rows[k]
  {
    seq(|rows|, k requires 0 <= k < |rows| => "  " + rows[k])
  }

  /** The metadata lines of a table: @schema, @defaults when there are
      defaults, @queryable when asked for. */
  function Head(name: string, schema: Schema, defaults: Dict<Value>, queryable: bool): seq<string> {
    [E.SchemaLine(schema)] + (if defaults != [] then [E.DefaultsLine(defaults)] else []) +
    (if queryable then ["@queryable[" + name + "]"] else [])
  }

  lemma HeadAt(name: string, schema: Schema, defaults: Dict<Value>, queryable: bool)
    ensures var head := Head(name, schema, defaults, queryable);
      |head| == 1 + (if defaults != [] then 1 else 0) + (if queryable then 1 else 0) &&
      head[0] == E.SchemaLine(schema) &&
      (defaults != [] ==> head[1] == E.DefaultsLine(defaults)) &&
      (queryable ==> head[|head| - 1] == "@queryable[" + name + "]")
  {
  }

  lemma HeadFirst(name: string, schema: Schema, defaults: Dict<Value>, queryable: bool)
    ensures |Head(name, schema, defaults, queryable)| > 0 && Head(name, schema, defaults, queryable)[0] == E.SchemaLine(schema)
  {
  }

  /** Where each part of a table's lines is. */
  lemma TableLinesAt(head: seq<string>, h: string, rows: seq<string>)
    ensures var lines := head + ["", h] + Indent(rows);
      |lines| == |head| + 2 + |rows| && (forall k :: 0 <= k < |head| ==> lines[k] == head[k]) &&
      lines[|head|] == "" && lines[|head| + 1] == h &&
      forall k :: 0 <= k < |rows| ==> lines[|head| + 2 + k] == "  " + rows[k]
  {
    var lines := head + ["", h] + Indent(rows);
    forall k | 0 <= k < |rows| ensures lines[|head| + 2 + k] == "  " + rows[k] {
      assert lines[|head| + 2 + k] == Indent(rows)[k];
    }
  }

  /** What a table needs to be read back: a name the header can carry, a
      schema and defaults whose lines read back, and rows that are data
      lines. */
  predicate Readable(name: string, schema: Schema, defaults: Dict<Value>, rows: seq<string>) {
    DP.TableName(name) && '\n' !in name && SafeSchema(schema) && DistinctKeys(defaults) && SafeDefaults(defaults) &&
    forall k :: 0 <= k < |rows| ==> RowText(rows[k])
  }

  /** The lines after the table's head are its rows, indented. */
  lemma IndentedLines(head: seq<string>, h: string, rows: seq<string>)
    requires forall k :: 0 <= k < |rows| ==> RowText(rows[k])
    ensures IndentedAt(head + ["", h] + Indent(rows), |head| + 2, rows)
  {
    TableLinesAt(head, h, rows);
  }

  /** The first line of a table's head sets the schema. */
  lemma HeadSchemaStep(lines: seq<string>, i: nat, name: string, schema: Schema, defaults: Dict<Value>, queryable: bool, st: D.DecodeState)
    requires i + |Head(name, schema, defaults, queryable)| <= |lines|
    requires forall k :: 0 <= k < |Head(name, schema, defaults, queryable)| ==> lines[i + k] == Head(name, schema, defaults, queryable)[k]
    requires SafeSchema(schema)
    ensures D.StepAt(lines, i, st) == Success((i + 1, st.(schema := schema)))
  {
    HeadLineFirst(lines, i, name, schema, defaults, queryable);
    SchemaStep(lines, i, st, schema);
  }

  lemma HeadLineFirst(lines: seq<string>, i: nat, name: string, schema: Schema, defaults: Dict<Value>, queryable: bool)
    requires i + |Head(name, schema, defaults, queryable)| <= |lines|
    requires forall k :: 0 <= k < |Head(name, schema, defaults, queryable)| ==> lines[i + k] == Head(name, schema, defaults, queryable)[k]
    ensures i < |lines| && lines[i] == E.SchemaLine(schema)
  {
    HeadFirst(name, schema, defaults, queryable);
    assert lines[i + 0] == Head(name, schema, defaults, queryable)[0];
  }

  /** The @defaults line of a table's head, when it has one, sets the defaults. */
  lemma HeadDefaultsStep(lines: seq<string>, name: string, schema: Schema, defaults: Dict<Value>, queryable: bool, st: D.DecodeState)
    requires |Head(name, schema, defaults, queryable)| < |lines|
    requires forall k :: 0 <= k < |Head(name, schema, defaults, queryable)| ==> lines[k] == Head(name, schema, defaults, queryable)[k]
    requires defaults != [] && DistinctKeys(defaults) && SafeDefaults(defaults) && st.dictionary == []
    ensures D.StepAt(lines, 1, st) == Success((2, st.(defaults := E.SortByKey(defaults))))
  {
    HeadAt(name, schema, defaults, queryable);
    assert lines[1] == E.DefaultsLine(defaults);
    DefaultsStep(lines, 1, st, defaults);
  }

  /** The @queryable line of a table's head, when it has one, is skipped. */
  lemma HeadQueryableStep(lines: seq<string>, name: string, schema: Schema, defaults: Dict<Value>, queryable: bool, st: D.DecodeState)
    requires |Head(name, schema, defaults, queryable)| < |lines|
    requires forall k :: 0 <= k < |Head(name, schema, defaults, queryable)| ==> lines[k] == Head(name, schema, defaults, queryable)[k]
    requires queryable
    ensures var m := |Head(name, schema, defaults, queryable)|;
      m >= 2 && D.StepAt(lines, m - 1, st) == Success((m, st))
  {
    HeadAt(name, schema, defaults, queryable);
    var m := |Head(name, schema, defaults, queryable)|;
    QueryableStep(lines, m - 1, st, name);
  }

  /** The steps over a table's head, in the form the scan over them takes. */
  lemma HeadSteps(lines: seq<string>, name: string, schema: Schema, defaults: Dict<Value>, queryable: bool)
    requires |Head(name, schema, defaults, queryable)| < |lines|
    requires forall k :: 0 <= k < |Head(name, schema, defaults, queryable)| ==> lines[k] == Head(name, schema, defaults, queryable)[k]
    requires SafeSchema(schema) && DistinctKeys(defaults) && SafeDefaults(defaults)
    ensures var st1 := D.DecodeState([], schema, [], []);
      var st2 := D.DecodeState([], schema, E.SortByKey(defaults), []);
      var i1 := if defaults != [] then 2 else 1;
      var m := |Head(name, schema, defaults, queryable)|;
      1 <= i1 <= m &&
      D.StepAt(lines, 0, D.DecodeState([], [], [], [])) == Success((1, st1)) &&
      (i1 == 1 ==> st2 == st1) &&
      (i1 != 1 ==> i1 == 2 && D.StepAt(lines, 1, st1) == Success((2, st2))) &&
      (m != i1 ==> m == i1 + 1 && D.StepAt(lines, i1, st2) == Success((m, st2)))
  {
    var st0 := D.DecodeState([], [], [], []);
    var st1 := st0.(schema := schema);
    var st2 := st1.(defaults := E.SortByKey(defaults));
    HeadAt(name, schema, defaults, queryable);
    HeadSchemaStep(lines, 0, name, schema, defaults, queryable, st0);
    if defaults != [] {
      HeadDefaultsStep(lines, name, schema, defaults, queryable, st1);
    } else {
      assert st2 == st1;
    }
    if queryable {
      HeadQueryableStep(lines, name, schema, defaults, queryable, st2);
    }
  }

  /** A fresh decoder's scan over a table's head ends with the schema and
      the defaults written. */
  lemma HeadScan(lines: seq<string>, name: string, schema: Schema, defaults: Dict<Value>, queryable: bool)
    requires |Head(name, schema, defaults, queryable)| < |lines|
    requires forall k :: 0 <= k < |Head(name, schema, defaults, queryable)| ==> lines[k] == Head(name, schema, defaults, queryable)[k]
    requires SafeSchema(schema) && DistinctKeys(defaults) && SafeDefaults(defaults)
    ensures D.DecodeFrom(lines, 0, D.DecodeState([], [], [], [])) ==
      D.DecodeFrom(lines, |Head(name, schema, defaults, queryable)|, D.DecodeState([], schema, E.SortByKey(defaults), []))
  {
    HeadSteps(lines, name, schema, defaults, queryable);
    HeadChain(lines, if defaults != [] then 2 else 1, |Head(name, schema, defaults, queryable)|,
      D.DecodeState([], [], [], []), D.DecodeState([], schema, [], []), D.DecodeState([], schema, E.SortByKey(defaults), []));
  }

  /** The scan over the blank line, the header and the rows stores the table. */
  lemma TailScan(lines: seq<string>, m: nat, st: D.DecodeState, name: string, rows: seq<string>)
    requires DP.TableName(name) && m + 2 + |rows| == |lines|
    requires lines[m] == "" && lines[m + 1] == E.Header(name, |rows|) && IndentedAt(lines, m + 2, rows)
    ensures D.DecodeFrom(lines, m, st) ==
      (Success(Put(st.result, name, D.RecordsOf(rows, st.schema, st.defaults, st.dictionary))), st.dictionary)
  {
    TableEnd(lines, m, st, name, rows);
    TailChain(lines, m, st, name, rows);
  }

  /** A scan that reaches line m in state st and reads the rest as one
      new table yields just that table. */
  lemma ReadsOneTable(lines: seq<string>, m: nat, st: D.DecodeState, name: string, records: seq<Record>)
    requires m <= |lines| && st.result == []
    requires D.DecodeFrom(lines, 0, D.DecodeState([], [], [], [])) == D.DecodeFrom(lines, m, st)
    requires D.DecodeFrom(lines, m, st) == (Success(Put(st.result, name, records)), st.dictionary)
    ensures D.DecodeFrom(lines, 0, D.DecodeState([], [], [], [])) == (Success([(name, records)]), st.dictionary)
  {
    PutFirst(name, records);
  }

  lemma PutFirst<V>(k: string, v: V)
    ensures Put([], k, v) == [(k, v)]
  {
    var none: Dict<V> := [];
    PutNew(none, k, v);
  }

  /** The lines of one table: its head, a blank line, the header and the
      indented rows. */
  ghost predicate TableLines(lines: seq<string>, head: seq<string>, name: string, rows: seq<string>) {
    |lines| == |head| + 2 + |rows| && (forall k :: 0 <= k < |head| ==> lines[k] == head[k]) &&
    lines[|head|] == "" && lines[|head| + 1] == E.Header(name, |rows|) && IndentedAt(lines, |head| + 2, rows)
  }

  lemma TableLinesOf(head: seq<string>, name: string, rows: seq<string>)
    requires forall k :: 0 <= k < |rows| ==> RowText(rows[k])
    ensures TableLines(head + ["", E.Header(name, |rows|)] + Indent(rows), head, name, rows)
  {
    TableLinesAt(head, E.Header(name, |rows|), rows);
    IndentedLines(head, E.Header(name, |rows|), rows);
  }

  /** Over a table's lines, the scan of the head. */
  lemma TableHeadScan(lines: seq<string>, name: string, schema: Schema, defaults: Dict<Value>, queryable: bool, rows: seq<string>)
    requires Readable(name, schema, defaults, rows)
    requires TableLines(lines, Head(name, schema, defaults, queryable), name, rows)
    ensures D.DecodeFrom(lines, 0, D.DecodeState([], [], [], [])) ==
      D.DecodeFrom(lines, |Head(name, schema, defaults, queryable)|, D.DecodeState([], schema, E.SortByKey(defaults), []))
  {
    HeadScan(lines, name, schema, defaults, queryable);
  }

  /** Over a table's lines, the scan of what follows the head. */
  lemma TableTailScan(lines: seq<string>, name: string, schema: Schema, defaults: Dict<Value>, queryable: bool, rows: seq<string>)
    requires Readable(name, schema, defaults, rows)
    requires TableLines(lines, Head(name, schema, defaults, queryable), name, rows)
    ensures D.DecodeFrom(lines, |Head(name, schema, defaults, queryable)|, D.DecodeState([], schema, E.SortByKey(defaults), [])) ==
      (Success(Put([], name, D.RecordsOf(rows, schema, E.SortByKey(defaults), []))), [])
  {
    TailScan(lines, |Head(name, schema, defaults, queryable)|, D.DecodeState([], schema, E.SortByKey(defaults), []), name, rows);
  }

  lemma TableResult(lines: seq<string>, name: string, schema: Schema, defaults: Dict<Value>, queryable: bool, rows: seq<string>)
    requires Readable(name, schema, defaults, rows)
    requires TableLines(lines, Head(name, schema, defaults, queryable), name, rows)
    requires D.DecodeFrom(lines, 0, D.DecodeState([], [], [], [])) ==
      D.DecodeFrom(lines, |Head(name, schema, defaults, queryable)|, D.DecodeState([], schema, E.SortByKey(defaults), []))
    requires D.DecodeFrom(lines, |Head(name, schema, defaults, queryable)|, D.DecodeState([], schema, E.SortByKey(defaults), [])) ==
      (Success(Put([], name, D.RecordsOf(rows, schema, E.SortByKey(defaults), []))), [])
    ensures D.DecodeFrom(lines, 0, D.DecodeState([], [], [], [])) ==
      (Success([(name, D.RecordsOf(rows, schema, E.SortByKey(defaults), []))]), [])
  {
    ReadsOneTable(lines, |Head(name, schema, defaults, queryable)|, D.DecodeState([], schema, E.SortByKey(defaults), []),
      name, D.RecordsOf(rows, schema, E.SortByKey(defaults), []));
  }

  /** A fresh decoder reads the lines of one table as that table: its rows
      parsed under the schema and the defaults written. */
  lemma TableScan(lines: seq<string>, name: string, schema: Schema, defaults: Dict<Value>, queryable: bool, rows: seq<string>)
    requires Readable(name, schema, defaults, rows)
    requires TableLines(lines, Head(name, schema, defaults, queryable), name, rows)
    ensures D.DecodeFrom(lines, 0, D.DecodeState([], [], [], [])) ==
      (Success([(name, D.RecordsOf(rows, schema, E.SortByKey(defaults), []))]), [])
  {
    TableHeadScan(lines, name, schema, defaults, queryable, rows);
    TableTailScan(lines, name, schema, defaults, queryable, rows);
    TableResult(lines, name, schema, defaults, queryable, rows);
  }
}
