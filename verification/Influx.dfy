/**
 Printing metrics in the InfluxDB line protocol, and reading them back.

 A Python dictionary is the sequence of its items in insertion order.  Numbers, bucket bounds and
 timestamps are given as texts; formatting them is not part of this model.
 */
module Influx {
  import opened Wrappers
  import opened LineProtocol
  import opened Selections

  type Dict<V> = seq<(string, V)>

  predicate DistinctKeys<V>(d: Dict<V>)
  {
    forall i, j :: 0 <= i < j < |d| ==> d[i].0 != d[j].0
  }

  /** `d[k] = v`: replaces the value in place or appends. */
  function Put<V>(d: Dict<V>, k: string, v: V): Dict<V>
  {
    if d == [] then [(k, v)]
    else if d[0].0 == k then [(k, v)] + d[1..]
    else [d[0]] + Put(d[1..], k, v)
  }

  lemma {:induction false} PutAppends<V>(d: Dict<V>, k: string, v: V)
    requires forall i :: 0 <= i < |d| ==> d[i].0 != k
    ensures Put(d, k, v) == d + [(k, v)]
  {
    if d != [] {
      PutAppends(d[1..], k, v);
    }
  }

  lemma {:induction false} PutReplaces<V>(d: Dict<V>, k: string, v: V, i: nat)
    requires DistinctKeys(d) && i < |d| && d[i].0 == k
    ensures Put(d, k, v) == d[i := (k, v)]
  {
    if i > 0 { PutReplaces(d[1..], k, v, i - 1); }
  }

  /* ------------------------------------------------------------ printing */

  /** `s.replace(c, sub)`. */
  function Replace(s: string, c: char, sub: string): string
  {
    if s == [] then [] else (if s[0] == c then sub else [s[0]]) + Replace(s[1..], c, sub)
  }

  function EscapeName(name: string): string
  {
    Replace(Replace(name, ' ', "\\ "), ',', "\\,")
  }

  /** How tag keys, tag values and field keys are escaped. */
  function EscapeKey(k: string): string
  {
    Replace(Replace(Replace(k, ' ', "\\ "), ',', "\\,"), '=', "\\=")
  }

  function EscapeString(s: string): string
  {
    Replace(Replace(s, '\\', "\\\\"), '"', "\\\"")
  }

  function PrintValue(v: Value): string
  {
    match v
    case Bool(b) => if b then "t" else "f"
    case Int(text) => text + "i"
    case Float(text) => text
    case Str(s) => "\"" + EscapeString(s) + "\""
  }

  /** `get_field`: the key of a string value is escaped here, on top of what was done before. */
  function GetField(fk: string, fv: Value): string
  {
    (if fv.Str? then EscapeKey(fk) else fk) + "=" + PrintValue(fv)
  }

  function TagValue(v: Option<string>): string
  {
    if v.None? then "unknown" else v.value
  }

  function CleanTags(tags: Dict<Option<string>>): Dict<string>
  {
    seq(|tags|, i requires 0 <= i < |tags| => (EscapeKey(tags[i].0), EscapeKey(TagValue(tags[i].1))))
  }

  function CleanValues(values: Dict<Value>): Dict<Value>
  {
    seq(|values|, i requires 0 <= i < |values| => (EscapeKey(values[i].0), values[i].1))
  }

  predicate Hidden(key: string)
  {
    key == "help" || key == "unit"
  }

  /** The printed tags, without help and unit. */
  function TagParts(tags: Dict<string>): seq<string>
  {
    if tags == [] then []
    else (if Hidden(tags[0].0) then [] else [tags[0].0 + "=" + tags[0].1]) + TagParts(tags[1..])
  }

  function FieldParts(values: Dict<Value>): seq<string>
  {
    if values == [] then [] else [GetField(values[0].0, values[0].1)] + FieldParts(values[1..])
  }

  /** `",".join(parts)`. */
  function Join(parts: seq<string>): string
  {
    if parts == [] then "" else if |parts| == 1 then parts[0] else parts[0] + "," + Join(parts[1..])
  }

  /** What one line says, before escaping. */
  datatype Line = Line(name: string, tags: Dict<Option<string>>, values: Dict<Value>, time: string)

  function CombineTagsAndField(tags: Dict<Option<string>>, values: Dict<Value>, time: string): string
  {
    Join(TagParts(CleanTags(tags))) + " " + Join(FieldParts(CleanValues(values))) + " " + time
  }

  function PrintLine(line: Line): string
  {
    EscapeName(line.name) + "," + CombineTagsAndField(line.tags, line.values, line.time) + "\n"
  }

  /* ------------------------------------------------------------- meaning */

  /** The tags a line shows. */
  function Shown(tags: Dict<Option<string>>): seq<Tag>
  {
    if tags == [] then []
    else (if Hidden(tags[0].0) then [] else [(tags[0].0, TagValue(tags[0].1))]) + Shown(tags[1..])
  }

  /** The positions of the tags that a line shows. */
  ghost function ShownAt(tags: Dict<Option<string>>): set<nat>
  {
    set k: nat | k < |tags| && tags[k].0 != "help" && tags[k].0 != "unit"
  }

  /** The tag that is shown; a missing value reads "unknown". */
  ghost predicate ShowsTag(shown: Tag, tag: (string, Option<string>))
  {
    shown.0 == tag.0 && shown.1 == match tag.1 case Some(v) => v case None => "unknown"
  }

  /** The shown tags are those at the positions `ks`. */
  ghost predicate ShownFrom(tags: Dict<Option<string>>, shown: seq<Tag>, ks: seq<nat>)
  {
    |shown| == |ks| && forall i :: 0 <= i < |ks| ==> ks[i] < |tags| && ShowsTag(shown[i], tags[ks[i]])
  }

  lemma ShownFromTail(tag: (string, Option<string>), tags: Dict<Option<string>>, shown: seq<Tag>, ks: seq<nat>)
    requires ShownFrom(tags, shown, ks)
    ensures ShownFrom([tag] + tags, shown, Shifted(ks))
    ensures ShownFrom([tag] + tags, [(tag.0, TagValue(tag.1))] + shown, [0] + Shifted(ks))
  {
  }

  lemma ShownCons(tag: (string, Option<string>), tags: Dict<Option<string>>)
    ensures Shown([tag] + tags) == if Hidden(tag.0) then Shown(tags) else [(tag.0, TagValue(tag.1))] + Shown(tags)
  {
    assert ([tag] + tags)[1..] == tags;
  }

  lemma ShownAtCons(tag: (string, Option<string>), tags: Dict<Option<string>>, later: set<nat>)
    requires later == set k | k in ShownAt(tags) :: k + 1
    ensures ShownAt([tag] + tags) == if tag.0 != "help" && tag.0 != "unit" then {0} + later else later
  {
    var all := [tag] + tags;
    forall n: nat | n > 0 ensures n in later <==> n in ShownAt(all) {
      assert n < |all| ==> all[n] == tags[n - 1];
      assert n in later <==> n - 1 in ShownAt(tags);
    }
  }

  /** The positions after one more tag in front. */
  function TagKeys(tag: (string, Option<string>), ks: seq<nat>): seq<nat>
  {
    if Hidden(tag.0) then Shifted(ks) else [0] + Shifted(ks)
  }

  lemma ShownStep(tag: (string, Option<string>), tags: Dict<Option<string>>, ks: seq<nat>)
    requires Enumerates(ks, ShownAt(tags)) && ShownFrom(tags, Shown(tags), ks)
    ensures Enumerates(TagKeys(tag, ks), ShownAt([tag] + tags))
    ensures ShownFrom([tag] + tags, Shown([tag] + tags), TagKeys(tag, ks))
  {
    EnumeratesCons(ks, ShownAt(tags), !Hidden(tag.0));
    ShownAtCons(tag, tags, set k | k in ShownAt(tags) :: k + 1);
    ShownFromTail(tag, tags, Shown(tags), ks);
    ShownCons(tag, tags);
  }

  /** A line shows its tags in order, all but `help` and `unit`. */
  lemma {:induction false} ShownExactly(tags: Dict<Option<string>>) returns (ks: seq<nat>)
    ensures Enumerates(ks, ShownAt(tags)) && ShownFrom(tags, Shown(tags), ks)
  {
    if tags == [] {
      ks := [];
    } else {
      var more := ShownExactly(tags[1..]);
      ShownStep(tags[0], tags[1..], more);
      assert tags == [tags[0]] + tags[1..];
      ks := TagKeys(tags[0], more);
    }
  }

  /** The point a line should be read as. */
  function PointOf(line: Line): Point
  {
    Point(line.name, Shown(line.tags), line.values, line.time)
  }

  predicate ReadableTags(tags: seq<Tag>)
  {
    forall i :: 0 <= i < |tags| ==> ReadableName(tags[i].0) && ReadableName(tags[i].1)
  }

  /** A field key can be read back; that of a string value only if escaping leaves it alone. */
  predicate ReadableField(f: Field)
  {
    ReadableName(f.0) && (f.1.Str? ==> Plain(f.0, IN_KEYS))
  }

  predicate ReadableFields(fields: seq<Field>)
  {
    forall i :: 0 <= i < |fields| ==> ReadableField(fields[i])
  }

  /** The lines that survive printing and reading. */
  predicate Printable(line: Line)
  {
    && ReadableName(line.name) && line.name[0] != '#'
    && Shown(line.tags) != [] && ReadableTags(Shown(line.tags))
    && line.values != [] && ReadableFields(line.values)
  }

  predicate NoSeparator(text: string)
  {
    forall i :: 0 <= i < |text| ==> text[i] != ' ' && text[i] != ',' && text[i] != '\n'
  }

  /** Texts that number formatting produces: no separators, and nothing that marks another kind of value. */
  predicate NumberText(text: string)
  {
    text != [] && text[0] != '"' && NoSeparator(text)
  }

  predicate NumberOk(v: Value)
  {
    match v
    case Int(text) => NumberText(text)
    case Float(text) => NumberText(text) && text != "t" && text != "f" && text[|text| - 1] != 'i'
    case _ => true
  }

  predicate NumbersOk(line: Line)
  {
    NumberText(line.time) && forall i :: 0 <= i < |line.values| ==> NumberOk(line.values[i].1)
  }

  /* -------------------------------------------------- escaping is escaping */

  lemma {:induction false} ReplaceConcat(a: string, b: string, c: char, sub: string)
    ensures Replace(a + b, c, sub) == Replace(a, c, sub) + Replace(b, c, sub)
  {
    if a == [] {
      assert a + b == b;
    } else {
      ReplaceConcat(a[1..], b, c, sub);
      assert (a + b)[1..] == a[1..] + b;
      Associate(if a[0] == c then sub else [a[0]], Replace(a[1..], c, sub), Replace(b, c, sub));
    }
  }

  lemma Associate(a: string, b: string, c: string)
    ensures (a + b) + c == a + (b + c)
  {
  }

  lemma ReplaceOne(x: char, c: char, sub: string)
    ensures Replace([x], c, sub) == if x == c then sub else [x]
  {
    assert [x][1..] == [];
  }

  lemma ReplaceTwo(x: char, y: char, c: char, sub: string)
    requires x != c
    ensures Replace([x, y], c, sub) == [x] + if y == c then sub else [y]
  {
    assert [x, y][1..] == [y];
    ReplaceOne(y, c, sub);
  }

  /** The two replacements in a name act as one escape of both characters. */
  lemma {:induction false} EscapeNameIs(s: string)
    ensures EscapeName(s) == Escape(s, IN_NAMES)
  {
    if s != [] {
      EscapeNameIs(s[1..]);
      var one := Replace([s[0]], ' ', "\\ ");
      ReplaceOne(s[0], ' ', "\\ ");
      ReplaceOne(s[0], ',', "\\,");
      ReplaceTwo('\\', ' ', ',', "\\,");
      ReplaceConcat(one, Replace(s[1..], ' ', "\\ "), ',', "\\,");
    }
  }

  /** The three replacements in a key act as one escape of all three characters. */
  lemma {:induction false} EscapeKeyIs(s: string)
    ensures EscapeKey(s) == Escape(s, IN_KEYS)
  {
    if s != [] {
      EscapeKeyIs(s[1..]);
      var name := EscapeName([s[0]]);
      ReplaceOne(s[0], ' ', "\\ ");
      ReplaceOne(s[0], ',', "\\,");
      ReplaceOne(s[0], '=', "\\=");
      ReplaceTwo('\\', ' ', ',', "\\,");
      ReplaceTwo('\\', ' ', '=', "\\=");
      ReplaceTwo('\\', ',', '=', "\\=");
      assert s == [s[0]] + s[1..];
      ReplaceConcat([s[0]], s[1..], ' ', "\\ ");
      ReplaceConcat(Replace([s[0]], ' ', "\\ "), Replace(s[1..], ' ', "\\ "), ',', "\\,");
      ReplaceConcat(name, EscapeName(s[1..]), '=', "\\=");
    }
  }

  /** A key that is escaped twice is read back exactly when it is readable and escaping does not touch it. */
  lemma {:induction false} ScanTwiceEscaped(k: string, rest: string)
    requires rest != [] && rest[0] in IN_KEYS
    ensures ScanToken(Escape(Escape(k, IN_KEYS), IN_KEYS) + rest, IN_KEYS).token == k
            <==> Readable(k) && Plain(k, IN_KEYS)
  {
    var e := Escape(k, IN_KEYS);
    EscapePlain(k, IN_KEYS);
    if Plain(k, IN_KEYS) {
      ScanEscaped(k, IN_KEYS, rest);
    } else if k[0] in IN_KEYS {
      assert e[0] == '\\' && |e| > 1;
      ScanFirst(e, IN_KEYS, rest);
    } else if k[0] == '\n' {
      assert e[0] == '\n' && Escape(e, IN_KEYS)[0] == '\n';
      assert (Escape(e, IN_KEYS) + rest)[0] == '\n';
    } else {
      EscapePlain(k[1..], IN_KEYS);
      assert k == [k[0]] + k[1..];
      assert e == [k[0]] + Escape(k[1..], IN_KEYS) && e[1..] == Escape(k[1..], IN_KEYS);
      assert !Plain(k[1..], IN_KEYS) && k[1..] != [] && |e| > 1;
      ScanFirst(e, IN_KEYS, rest);
      ScanTwiceEscaped(k[1..], rest);
    }
  }

  /* -------------------------------------------------------------- values */

  /** Backslashes and quotes of a string value, escaped one character at a time. */
  function Quoted(s: string): string
  {
    if s == [] then [] else (if s[0] == '"' || s[0] == '\\' then ['\\', s[0]] else [s[0]]) + Quoted(s[1..])
  }

  lemma {:induction false} EscapeStringIs(s: string)
    ensures EscapeString(s) == Quoted(s)
  {
    if s != [] {
      EscapeStringIs(s[1..]);
      ReplaceOne(s[0], '\\', "\\\\");
      ReplaceOne(s[0], '"', "\\\"");
      ReplaceTwo('\\', '\\', '"', "\\\"");
      assert s == [s[0]] + s[1..];
      ReplaceConcat([s[0]], s[1..], '\\', "\\\\");
      ReplaceConcat(Replace([s[0]], '\\', "\\\\"), Replace(s[1..], '\\', "\\\\"), '"', "\\\"");
    }
  }

  /** Every string value is read back, whatever it contains. */
  /** How each kind of value is printed. */
  lemma ValueTexts(text: string, s: string)
    ensures PrintValue(Bool(true)) == "t" && PrintValue(Bool(false)) == "f"
    ensures PrintValue(Int(text)) == text + "i" && PrintValue(Float(text)) == text
    ensures PrintValue(Str(s)) == "\"" + Quoted(s) + "\""
  {
    EscapeStringIs(s);
  }

  lemma {:induction false} ScanQuoted(s: string, rest: string)
    requires rest != [] && rest[0] == '"'
    ensures ScanString(Quoted(s) + rest) == Some(Scan(s, rest[1..]))
  {
    if s == [] {
      assert Quoted(s) + rest == rest;
    } else {
      ScanQuoted(s[1..], rest);
      assert s == [s[0]] + s[1..];
      if s[0] == '"' || s[0] == '\\' {
        SkipTwo(s[0], Quoted(s[1..]), rest);
      } else {
        SkipOne(s[0], Quoted(s[1..]), rest);
      }
    }
  }

  lemma {:induction false} ScanNumber(text: string, rest: string)
    requires NoSeparator(text)
    requires rest != [] && rest[0] in {' ', ',', '\n'}
    ensures ScanPlain(text + rest) == Scan(text, rest)
  {
    if text == [] {
      assert text + rest == rest;
    } else {
      assert (text + rest)[0] == text[0] && (text + rest)[1..] == text[1..] + rest;
      ScanNumber(text[1..], rest);
    }
  }

  lemma ReadPrintedNumber(token: string, v: Value, rest: string)
    requires token != [] && token[0] != '"' && NoSeparator(token) && Classify(token) == Some(v)
    requires rest != [] && rest[0] in {' ', ','}
    ensures ReadValue(token + rest) == Some(Read(v, rest))
  {
    ScanNumber(token, rest);
  }

  lemma ReadPrintedValue(v: Value, rest: string)
    requires NumberOk(v) && rest != [] && rest[0] in {' ', ','}
    ensures ReadValue(PrintValue(v) + rest) == Some(Read(v, rest))
  {
    match v
    case Bool(b) => ReadPrintedNumber(PrintValue(v), v, rest);
    case Int(text) =>
      assert (text + "i")[..|text|] == text;
      ReadPrintedNumber(text + "i", v, rest);
    case Float(text) => ReadPrintedNumber(text, v, rest);
    case Str(s) =>
      EscapeStringIs(s);
      var line := PrintValue(v) + rest;
      var quote := "\"" + rest;
      assert line[0] == '"' && line[1..] == Quoted(s) + quote && quote[1..] == rest;
      ScanQuoted(s, quote);
  }

  /* --------------------------------------------------------- tags, fields */

  /** Every tag after a comma. */
  function PrintTags(tags: seq<Tag>): string
  {
    if tags == [] then []
    else "," + (Escape(tags[0].0, IN_KEYS) + ("=" + (Escape(tags[0].1, IN_KEYS) + PrintTags(tags[1..]))))
  }

  lemma {:induction false} PrintTagsStart(tags: seq<Tag>, rest: string)
    requires rest != [] && rest[0] == ' '
    ensures PrintTags(tags) + rest != [] && (PrintTags(tags) + rest)[0] in {' ', ','}
  {
    if tags == [] { assert PrintTags(tags) + rest == rest; }
  }

  /** How the first tag of a list is read, right or wrong. */
  lemma ReadFirstTag(line: string, k: string, v: string, eqv: string, after: string)
    requires line != [] && line[0] == ',' && eqv != [] && eqv[0] == '='
    ensures var r, key := ReadTags(line), ScanToken(line[1..], IN_KEYS);
            && (key.token != k ==> r.None? || (r.value.value != [] && r.value.value[0].0 != k))
            && (key == Scan(k, eqv) && k == [] ==> r.None?)
            && (key == Scan(k, eqv) ==>
                  var val := ScanToken(eqv[1..], IN_KEYS);
                  && (val.token != v ==> r.None? || (r.value.value != [] && r.value.value[0].1 != v))
                  && (val == Scan(v, after) ==>
                        var more := ReadTags(after);
                        r == if k == [] || v == [] || more.None? then None
                             else Some(Read([(k, v)] + more.value.value, more.value.rest))))
  {
  }

  /** The tag list is read back exactly when every shown key and value is readable. */
  lemma {:induction false} ReadPrintedTags(tags: seq<Tag>, rest: string)
    requires rest != [] && rest[0] == ' '
    ensures var r := ReadTags(PrintTags(tags) + rest);
            (r.Some? && r.value.value == tags <==> ReadableTags(tags)) &&
            (ReadableTags(tags) ==> r.value.rest == rest)
  {
    if tags == [] {
      assert PrintTags(tags) + rest == rest;
      return;
    }
    var (k, v) := tags[0];
    var after := PrintTags(tags[1..]) + rest;
    var val := Escape(v, IN_KEYS) + after;
    var eqv := "=" + val;
    var line := PrintTags(tags) + rest;
    TagLine(k, v, PrintTags(tags[1..]), rest);
    PrintTagsStart(tags[1..], rest);
    ScanEscaped(k, IN_KEYS, eqv);
    ScanEscaped(v, IN_KEYS, after);
    ReadPrintedTags(tags[1..], rest);
    ReadFirstTag(line, k, v, eqv, after);
    assert eqv[1..] == val;
    HeadAndTail(tags, ReadTags(line));
  }

  lemma HeadAndTail(tags: seq<Tag>, r: Option<Read<seq<Tag>>>)
    requires tags != []
    ensures ReadableTags(tags) <==> ReadableName(tags[0].0) && ReadableName(tags[0].1) && ReadableTags(tags[1..])
    ensures r.Some? && r.value.value == tags <==>
            r.Some? && r.value.value != [] && r.value.value[0] == tags[0] && r.value.value[1..] == tags[1..]
  {
    assert tags == [tags[0]] + tags[1..];
    if r.Some? && r.value.value != [] {
      assert r.value.value == [r.value.value[0]] + r.value.value[1..];
    }
  }

  lemma TagLine(k: string, v: string, more: string, rest: string)
    ensures var line := "," + (Escape(k, IN_KEYS) + ("=" + (Escape(v, IN_KEYS) + more))) + rest;
            line[0] == ',' && line[1..] == Escape(k, IN_KEYS) + ("=" + (Escape(v, IN_KEYS) + (more + rest)))
  {
    var line := "," + (Escape(k, IN_KEYS) + ("=" + (Escape(v, IN_KEYS) + more))) + rest;
    assert line[1..] == (Escape(k, IN_KEYS) + ("=" + (Escape(v, IN_KEYS) + more))) + rest;
    Associate(Escape(k, IN_KEYS), "=" + (Escape(v, IN_KEYS) + more), rest);
    Associate("=", Escape(v, IN_KEYS) + more, rest);
    Associate(Escape(v, IN_KEYS), more, rest);
  }

  /** The printed key of a field: escaped once, and twice in front of a string. */
  function PrintFieldKey(f: Field): string
  {
    if f.1.Str? then Escape(Escape(f.0, IN_KEYS), IN_KEYS) else Escape(f.0, IN_KEYS)
  }

  function PrintFields(fields: seq<Field>): string
    requires fields != []
    decreases |fields|, 0
  {
    PrintFieldKey(fields[0]) + ("=" + (PrintValue(fields[0].1) + MoreFields(fields[1..])))
  }

  function MoreFields(fields: seq<Field>): string
    decreases |fields|, 1
  {
    if fields == [] then [] else "," + PrintFields(fields)
  }

  lemma ScanFieldKey(f: Field, rest: string)
    requires rest != [] && rest[0] in IN_KEYS
    ensures var t := ScanToken(PrintFieldKey(f) + rest, IN_KEYS);
            (t.token == f.0 && f.0 != [] <==> ReadableField(f)) && (ReadableField(f) ==> t.rest == rest)
  {
    ScanEscaped(f.0, IN_KEYS, rest);
    if f.1.Str? {
      ScanTwiceEscaped(f.0, rest);
      EscapePlain(f.0, IN_KEYS);
    }
  }

  /** How the first field of a list is read, right or wrong. */
  lemma ReadFirstField(line: string, f: Field, eqv: string, after: string)
    requires eqv != [] && eqv[0] == '='
    ensures var r, key := ReadFields(line), ScanToken(line, IN_KEYS);
            && (key.token != f.0 || f.0 == [] ==> r.None? || (r.value.value != [] && r.value.value[0].0 != f.0))
            && (key == Scan(f.0, eqv) && f.0 != [] && ReadValue(eqv[1..]) == Some(Read(f.1, after)) ==>
                  if after != [] && after[0] == ',' then
                    var more := ReadFields(after[1..]);
                    r == if more.None? then None else Some(Read([f] + more.value.value, more.value.rest))
                  else r == Some(Read([f], after)))
  {
  }

  /** The field list is read back exactly when every key is. */
  lemma {:induction false} ReadPrintedFields(fields: seq<Field>, rest: string)
    requires fields != [] && rest != [] && rest[0] == ' '
    requires forall i :: 0 <= i < |fields| ==> NumberOk(fields[i].1)
    ensures var r := ReadFields(PrintFields(fields) + rest);
            (r.Some? && r.value.value == fields <==> ReadableFields(fields)) &&
            (ReadableFields(fields) ==> r.value.rest == rest)
    decreases |fields|
  {
    var f := fields[0];
    var after := MoreFields(fields[1..]) + rest;
    var val := PrintValue(f.1) + after;
    var eqv := "=" + val;
    FieldLine(PrintFieldKey(f), PrintValue(f.1), MoreFields(fields[1..]), rest);
    ScanFieldKey(f, eqv);
    assert eqv[1..] == val;
    MoreFieldsLine(fields[1..], rest);
    ReadPrintedValue(f.1, after);
    ReadFirstField(PrintFields(fields) + rest, f, eqv, after);
    HeadAndTailOfFields(fields, ReadFields(PrintFields(fields) + rest));
    if |fields| > 1 {
      ReadPrintedFields(fields[1..], rest);
    }
  }

  lemma DropComma(a: string, b: string)
    ensures ("," + a + b)[0] == ',' && ("," + a + b)[1..] == a + b
  {
  }

  lemma MoreFieldsLine(fields: seq<Field>, rest: string)
    requires rest != [] && rest[0] == ' '
    ensures var after := MoreFields(fields) + rest;
            if fields == [] then after == rest else after[0] == ',' && after[1..] == PrintFields(fields) + rest
  {
    if fields == [] {
      assert MoreFields(fields) + rest == rest;
    } else {
      DropComma(PrintFields(fields), rest);
    }
  }

  lemma HeadAndTailOfFields(fields: seq<Field>, r: Option<Read<seq<Field>>>)
    requires fields != []
    ensures ReadableFields(fields) <==> ReadableField(fields[0]) && ReadableFields(fields[1..])
    ensures r.Some? && r.value.value == fields <==>
            r.Some? && r.value.value != [] && r.value.value[0] == fields[0] && r.value.value[1..] == fields[1..]
  {
    assert fields == [fields[0]] + fields[1..];
    if r.Some? && r.value.value != [] {
      assert r.value.value == [r.value.value[0]] + r.value.value[1..];
    }
  }

  lemma FieldLine(k: string, v: string, more: string, rest: string)
    ensures k + ("=" + (v + more)) + rest == k + ("=" + (v + (more + rest)))
  {
    Associate(k, "=" + (v + more), rest);
    Associate("=", v + more, rest);
    Associate(v, more, rest);
  }

  /* --------------------------------------------------------------- lines */

  lemma HiddenEscaped(k: string)
    ensures Hidden(EscapeKey(k)) <==> Hidden(k)
  {
    EscapeKeyIs(k);
    EscapePlain(k, IN_KEYS);
    if !Plain(k, IN_KEYS) {
      EscapedHasBackslash(k);
      assert '\\' !in "help" && '\\' !in "unit";
      assert ' ' !in "help" && ',' !in "help" && '=' !in "help" && ' ' !in "unit" && ',' !in "unit" && '=' !in "unit";
    }
  }

  lemma {:induction false} EscapedHasBackslash(k: string)
    requires !Plain(k, IN_KEYS)
    ensures '\\' in Escape(k, IN_KEYS)
  {
    if k[0] !in IN_KEYS {
      assert k == [k[0]] + k[1..];
      EscapedHasBackslash(k[1..]);
    } else {
      assert Escape(k, IN_KEYS)[0] == '\\';
    }
  }

  /** The joined tag parts are the list of shown tags without its first comma. */
  lemma {:induction false} JoinedTags(tags: Dict<Option<string>>)
    ensures var parts := TagParts(CleanTags(tags));
            (parts == [] <==> Shown(tags) == []) &&
            PrintTags(Shown(tags)) == if parts == [] then [] else "," + Join(parts)
  {
    if tags != [] {
      JoinedTags(tags[1..]);
      var k, v := tags[0].0, TagValue(tags[0].1);
      assert CleanTags(tags)[1..] == CleanTags(tags[1..]);
      HiddenEscaped(k);
      EscapeKeyIs(k);
      EscapeKeyIs(v);
      var more := TagParts(CleanTags(tags[1..]));
      var head := EscapeKey(k) + "=" + EscapeKey(v);
      if !Hidden(k) {
        assert TagParts(CleanTags(tags)) == [head] + more;
        JoinCons(head, more);
        assert Shown(tags) == [(k, v)] + Shown(tags[1..]) && Shown(tags)[1..] == Shown(tags[1..]);
        TagText(EscapeKey(k), EscapeKey(v), PrintTags(Shown(tags[1..])));
      } else {
        assert TagParts(CleanTags(tags)) == [] + more == more;
        assert Shown(tags) == [] + Shown(tags[1..]) == Shown(tags[1..]);
      }
    }
  }

  lemma TagText(k: string, v: string, more: string)
    ensures "," + (k + ("=" + (v + more))) == "," + ((k + "=" + v) + more)
  {
    assert k + ("=" + (v + more)) == (k + "=" + v) + more;
  }

  lemma FieldText(f: Field, tail: string)
    ensures GetField(EscapeKey(f.0), f.1) + tail == PrintFieldKey(f) + ("=" + (PrintValue(f.1) + tail))
  {
    EscapeKeyIs(f.0);
    EscapeKeyIs(EscapeKey(f.0));
    Associate(PrintFieldKey(f), "=", PrintValue(f.1));
    Associate(PrintFieldKey(f), "=" + PrintValue(f.1), tail);
    Associate("=", PrintValue(f.1), tail);
  }

  lemma JoinCons(head: string, more: seq<string>)
    ensures Join([head] + more) == head + if more == [] then [] else "," + Join(more)
  {
    assert ([head] + more)[1..] == more;
    if more == [] { assert head + [] == head; } else { Associate(head, ",", Join(more)); }
  }

  lemma {:induction false} JoinedFields(values: Dict<Value>)
    ensures Join(FieldParts(CleanValues(values))) == if values == [] then [] else PrintFields(values)
  {
    if values != [] {
      JoinedFields(values[1..]);
      assert CleanValues(values)[1..] == CleanValues(values[1..]);
      JoinCons(GetField(EscapeKey(values[0].0), values[0].1), FieldParts(CleanValues(values[1..])));
      FieldText(values[0], MoreFields(values[1..]));
    }
  }

  /** How a line is read, right or wrong, in terms of its parts. */
  lemma ReadLineParts(s: string, p: Point, tagged: string, spaced: string, timed: string, rest: string)
    requires s != [] && spaced != [] && spaced[0] == ' ' && timed != [] && timed[0] == ' '
    ensures s[0] == '#' ==> ReadLine(s).None?
    ensures s[0] != '#' ==>
              var r, n := ReadLine(s), ScanToken(s, IN_NAMES);
              && (n.token != p.name || p.name == [] ==> r.None? || r.value.value.name != p.name)
              && (n == Scan(p.name, tagged) && p.name != [] ==>
                    var tags := ReadTags(tagged);
                    && (tags.None? || tags.value.value != p.tags ==> r.None? || r.value.value.tags != p.tags)
                    && (tags == Some(Read(p.tags, spaced)) ==>
                          var fields := ReadFields(spaced[1..]);
                          && (fields.None? || fields.value.value != p.fields ==>
                                r.None? || r.value.value.fields != p.fields)
                          && (fields == Some(Read(p.fields, timed)) ==>
                                ScanPlain(timed[1..]) == Scan(p.time, "\n" + rest) ==> r == Some(Read(p, rest)))))
  {
    if s[0] != '#' { assert ("\n" + rest)[1..] == rest; }
  }

  /** The text of a line, split where the reader splits it. */
  lemma LineText(line: Line, rest: string)
    ensures var timed := " " + (line.time + ("\n" + rest));
            var spaced := " " + ((if line.values == [] then [] else PrintFields(line.values)) + timed);
            var tagged := (if Shown(line.tags) == [] then "," else PrintTags(Shown(line.tags))) + spaced;
            PrintLine(line) + rest == Escape(line.name, IN_NAMES) + tagged
  {
    EscapeNameIs(line.name);
    JoinedTags(line.tags);
    JoinedFields(line.values);
    var tags, fields := Join(TagParts(CleanTags(line.tags))), Join(FieldParts(CleanValues(line.values)));
    var timed := " " + (line.time + ("\n" + rest));
    var spaced := " " + (fields + timed);
    assert "," + tags == if Shown(line.tags) == [] then "," else PrintTags(Shown(line.tags));
    SplitCombined(tags, fields, line.time, "\n" + rest);
    SplitName(EscapeName(line.name), tags, spaced, CombineTagsAndField(line.tags, line.values, line.time), rest);
  }

  lemma SplitCombined(tags: string, fields: string, time: string, end: string)
    ensures (tags + " " + fields + " " + time) + end == tags + (" " + (fields + (" " + (time + end))))
  {
    Associate(tags + " " + fields + " ", time, end);
    Associate(tags + " " + fields, " ", time + end);
    Associate(tags + " ", fields, " " + (time + end));
    Associate(tags, " ", fields + (" " + (time + end)));
  }

  lemma SplitName(name: string, tags: string, spaced: string, combined: string, rest: string)
    requires combined + ("\n" + rest) == tags + spaced
    ensures (name + "," + combined + "\n") + rest == name + (("," + tags) + spaced)
  {
    Associate(name + "," + combined, "\n", rest);
    Associate(name + ",", combined, "\n" + rest);
    Associate(name, ",", tags + spaced);
    Associate(",", tags, spaced);
  }

  /**
   A printed line is read back as the point it stands for exactly when it is printable: some tag is shown,
   there is a value, the name starts no comment, no name, key or tag value is empty, ends in a backslash or
   breaks the line, and the keys of string values hold no special character.
   */
  lemma LineRoundTrip(line: Line, rest: string)
    requires NumbersOk(line)
    ensures var r := ReadLine(PrintLine(line) + rest);
            (r == Some(Read(PointOf(line), rest)) <==> Printable(line)) &&
            (r.Some? && r.value.value == PointOf(line) <==> Printable(line))
  {
    var timed := " " + (line.time + ("\n" + rest));
    var spaced := " " + ((if line.values == [] then [] else PrintFields(line.values)) + timed);
    var tagged := (if Shown(line.tags) == [] then "," else PrintTags(Shown(line.tags))) + spaced;
    LineText(line, rest);
    FirstChar(line.name, tagged);
    ScanEscaped(line.name, IN_NAMES, tagged);
    ReadTagSection(Shown(line.tags), spaced);
    ReadFieldSection(line.values, timed);
    ReadTime(line.time, rest);
    ReadLineParts(PrintLine(line) + rest, PointOf(line), tagged, spaced, timed, rest);
  }

  lemma FirstChar(name: string, tagged: string)
    requires tagged != [] && tagged[0] == ','
    ensures Escape(name, IN_NAMES) + tagged != []
    ensures (Escape(name, IN_NAMES) + tagged)[0] == '#' <==> name != [] && name[0] == '#'
  {
  }

  lemma ReadTagSection(shown: seq<Tag>, spaced: string)
    requires spaced != [] && spaced[0] == ' '
    ensures var tagged := (if shown == [] then "," else PrintTags(shown)) + spaced;
            tagged[0] == ',' &&
            var r := ReadTags(tagged);
            (r.Some? && r.value.value == shown <==> shown != [] && ReadableTags(shown)) &&
            (shown != [] && ReadableTags(shown) ==> r == Some(Read(shown, spaced)))
  {
    if shown == [] {
      assert ("," + spaced)[1..] == spaced;
    } else {
      ReadPrintedTags(shown, spaced);
    }
  }

  lemma ReadFieldSection(fields: seq<Field>, timed: string)
    requires timed != [] && timed[0] == ' ' && forall i :: 0 <= i < |fields| ==> NumberOk(fields[i].1)
    ensures var text := (if fields == [] then [] else PrintFields(fields)) + timed;
            (" " + text)[1..] == text &&
            var r := ReadFields(text);
            (r.Some? && r.value.value == fields <==> fields != [] && ReadableFields(fields)) &&
            (fields != [] && ReadableFields(fields) ==> r == Some(Read(fields, timed)))
  {
    if fields == [] {
      assert [] + timed == timed;
    } else {
      ReadPrintedFields(fields, timed);
    }
  }

  lemma ReadTime(time: string, rest: string)
    requires NumberText(time)
    ensures var timed := " " + (time + ("\n" + rest)); ScanPlain(timed[1..]) == Scan(time, "\n" + rest)
  {
    ScanNumber(time, "\n" + rest);
    assert (" " + (time + ("\n" + rest)))[1..] == time + ("\n" + rest);
  }
}
