/**
 Reading the InfluxDB line protocol: the decoder that the printer in module Influx is measured against.

 It follows the "Special characters" and "Comments" sections of the InfluxDB line protocol reference: in
 names, keys and tag values a backslash escapes only the listed special characters and is literal
 otherwise; string field values escape the double quote and the backslash.
 */
module LineProtocol {
  import opened Wrappers

  /** Number texts are opaque tokens. */
  datatype Value = Bool(b: bool) | Int(text: string) | Float(text: string) | Str(s: string)

  type Tag = (string, string)
  type Field = (string, Value)

  datatype Point = Point(name: string, tags: seq<Tag>, fields: seq<Field>, time: string)

  const IN_NAMES: set<char> := {' ', ','}
  const IN_KEYS: set<char> := {' ', ',', '='}

  datatype Scan = Scan(token: string, rest: string)

  /** Reads up to an unescaped special character or the end of the line. */
  function ScanToken(s: string, special: set<char>): (scan: Scan)
    ensures |scan.rest| <= |s|
  {
    if s == [] || s[0] in special || s[0] == '\n' then Scan([], s)
    else if s[0] == '\\' && |s| > 1 && s[1] in special then
      var t := ScanToken(s[2..], special);
      Scan([s[1]] + t.token, t.rest)
    else
      var t := ScanToken(s[1..], special);
      Scan([s[0]] + t.token, t.rest)
  }

  /** Reads the inside of a quoted string and its closing quote. */
  function ScanString(s: string): (scan: Option<Scan>)
    ensures scan.Some? ==> |scan.value.rest| < |s|
  {
    if s == [] then None
    else if s[0] == '"' then Some(Scan([], s[1..]))
    else if s[0] == '\\' && |s| > 1 && (s[1] == '"' || s[1] == '\\') then
      var t := ScanString(s[2..]);
      if t.None? then None else Some(Scan([s[1]] + t.value.token, t.value.rest))
    else
      var t := ScanString(s[1..]);
      if t.None? then None else Some(Scan([s[0]] + t.value.token, t.value.rest))
  }

  /** Reads an unquoted token, such as a number. */
  function ScanPlain(s: string): (scan: Scan)
    ensures |scan.rest| <= |s|
  {
    if s == [] || s[0] in {' ', ',', '\n'} then Scan([], s)
    else
      var t := ScanPlain(s[1..]);
      Scan([s[0]] + t.token, t.rest)
  }

  function Classify(token: string): Option<Value>
  {
    if token == [] then None
    else if token == "t" then Some(Bool(true))
    else if token == "f" then Some(Bool(false))
    else if token[|token| - 1] == 'i' then Some(Int(token[..|token| - 1]))
    else Some(Float(token))
  }

  datatype Read<+T> = Read(value: T, rest: string)

  function ReadValue(s: string): (r: Option<Read<Value>>)
    ensures r.Some? ==> |r.value.rest| <= |s|
  {
    if s != [] && s[0] == '"' then
      var t := ScanString(s[1..]);
      if t.None? then None else Some(Read(Str(t.value.token), t.value.rest))
    else
      var t := ScanPlain(s);
      var v := Classify(t.token);
      if v.None? then None else Some(Read(v.value, t.rest))
  }

  /** Zero or more tags, each after a comma; neither a key nor a value may be empty. */
  function ReadTags(s: string): (r: Option<Read<seq<Tag>>>)
    ensures r.Some? ==> |r.value.rest| <= |s|
    decreases |s|
  {
    if s == [] || s[0] != ',' then Some(Read([], s))
    else
      var k := ScanToken(s[1..], IN_KEYS);
      if k.rest == [] || k.rest[0] != '=' then None
      else
        var v := ScanToken(k.rest[1..], IN_KEYS);
        var more := ReadTags(v.rest);
        if k.token == [] || v.token == [] || more.None? then None
        else Some(Read([(k.token, v.token)] + more.value.value, more.value.rest))
  }

  /** One field or more, with a comma between them; no key may be empty. */
  function ReadFields(s: string): (r: Option<Read<seq<Field>>>)
    ensures r.Some? ==> |r.value.rest| <= |s|
    decreases |s|
  {
    var k := ScanToken(s, IN_KEYS);
    if k.token == [] || k.rest == [] || k.rest[0] != '=' then None
    else
      var v := ReadValue(k.rest[1..]);
      if v.None? then None
      else if v.value.rest != [] && v.value.rest[0] == ',' then
        var more := ReadFields(v.value.rest[1..]);
        if more.None? then None else Some(Read([(k.token, v.value.value)] + more.value.value, more.value.rest))
      else Some(Read([(k.token, v.value.value)], v.value.rest))
  }

  /** One line: name, tags, a space, fields, a space, a timestamp, a newline. */
  function ReadLine(s: string): (r: Option<Read<Point>>)
    ensures r.Some? ==> |r.value.rest| < |s|
  {
    if s != [] && s[0] == '#' then None
    else
      var n := ScanToken(s, IN_NAMES);
      var tags := ReadTags(n.rest);
      if n.token == [] || tags.None? || tags.value.rest == [] || tags.value.rest[0] != ' ' then None
      else
        var fields := ReadFields(tags.value.rest[1..]);
        if fields.None? || fields.value.rest == [] || fields.value.rest[0] != ' ' then None
        else
          var time := ScanPlain(fields.value.rest[1..]);
          if time.rest == [] || time.rest[0] != '\n' then None
          else Some(Read(Point(n.token, tags.value.value, fields.value.value, time.token), time.rest[1..]))
  }

  /** A whole body: lines up to the end. */
  function ReadBody(s: string): Option<seq<Point>>
    decreases |s|
  {
    if s == [] then Some([])
    else
      var line := ReadLine(s);
      if line.None? then None
      else
        var more := ReadBody(line.value.rest);
        if more.None? then None else Some([line.value.value] + more.value)
  }

  /* ---------------------------------------------------------- escaping */

  /** Every special character preceded by a backslash. */
  function Escape(s: string, special: set<char>): string
  {
    if s == [] then [] else (if s[0] in special then ['\\', s[0]] else [s[0]]) + Escape(s[1..], special)
  }

  /** What can be read back: no line break, and no backslash at the end, where it would escape what follows. */
  predicate Readable(s: string)
  {
    '\n' !in s && (s != [] ==> s[|s| - 1] != '\\')
  }

  predicate ReadableName(s: string)
  {
    s != [] && Readable(s)
  }

  predicate Plain(s: string, special: set<char>)
  {
    forall c :: c in special ==> c !in s
  }

  lemma {:induction false} EscapePlain(s: string, special: set<char>)
    requires '\\' !in special
    ensures Plain(s, special) <==> Escape(s, special) == s
    ensures |Escape(s, special)| >= |s|
  {
    if s != [] {
      EscapePlain(s[1..], special);
      assert s == [s[0]] + s[1..];
      if Escape(s, special) == s {
        assert s[0] !in special;
        assert Escape(s[1..], special) == s[1..];
      }
    }
  }

  /** Scanning an escaped text: the first character, unless it is a line break or a final backslash. */
  lemma ScanFirst(s: string, special: set<char>, rest: string)
    requires '\\' !in special && '\n' !in special && rest != [] && rest[0] in special
    requires s != [] && s[0] != '\n' && (s[0] == '\\' ==> |s| > 1)
    ensures var t := ScanToken(Escape(s[1..], special) + rest, special);
            ScanToken(Escape(s, special) + rest, special) == Scan([s[0]] + t.token, t.rest)
  {
    var more := Escape(s[1..], special);
    if s[0] in special {
      SkipTwo(s[0], more, rest);
    } else {
      SkipOne(s[0], more, rest);
      if s[0] == '\\' {
        assert more[0] == if s[1] in special then '\\' else s[1];
      }
    }
  }

  lemma SkipOne(c: char, more: string, rest: string)
    ensures var line := [c] + more + rest;
            line[0] == c && line[1..] == more + rest && (more != [] ==> |line| > 1 && line[1] == more[0])
  {
  }

  lemma SkipTwo(c: char, more: string, rest: string)
    ensures var line := ['\\', c] + more + rest;
            line[0] == '\\' && line[1] == c && line[2..] == more + rest
  {
  }

  /**
   Scanning an escaped text that is followed by a special character gives the text back exactly when it is
   readable, and then stops right behind it.
   */
  lemma {:induction false} ScanEscaped(s: string, special: set<char>, rest: string)
    requires '\\' !in special && '\n' !in special && rest != [] && rest[0] in special
    ensures ScanToken(Escape(s, special) + rest, special).token == s <==> Readable(s)
    ensures Readable(s) ==> ScanToken(Escape(s, special) + rest, special).rest == rest
  {
    var t := ScanToken(Escape(s, special) + rest, special);
    if s == [] {
      assert Escape(s, special) + rest == rest;
    } else if s[0] == '\n' {
      assert (Escape(s, special) + rest)[0] == '\n';
    } else if s == ['\\'] {
      ScanLoneBackslash(special, rest);
    } else {
      ScanFirst(s, special, rest);
      ScanEscaped(s[1..], special, rest);
      ReadableTail(s);
      assert t.token == s <==> t.token[1..] == s[1..];
    }
  }

  lemma ReadableTail(s: string)
    requires s != [] && s[0] != '\n' && (s[0] == '\\' ==> |s| > 1)
    ensures Readable(s) <==> Readable(s[1..])
  {
    assert s == [s[0]] + s[1..];
  }

  lemma ScanLoneBackslash(special: set<char>, rest: string)
    requires '\\' !in special && rest != [] && rest[0] in special
    ensures ScanToken(Escape(['\\'], special) + rest, special).token != ['\\']
  {
    var s := ['\\'];
    assert s[1..] == [] && Escape(s, special) == s + Escape(s[1..], special) == s;
    var line := s + rest;
    assert ScanToken(line, special).token[0] == rest[0];
  }
}
