/**
 Merging schema extensions into a base schema.
 */
module Schema {
  import opened Wrappers

  /** A parsed document; only what the merge looks at is told apart. */
  datatype Yaml = Null | Text(text: string) | Mapping(entries: map<string, Yaml>) | OtherValue

  /** What opening and parsing a library item comes to. */
  datatype Reading = Absent | Unreadable | Document(content: Yaml)

  datatype LibraryItem = LibraryItem(name: string, isItem: bool, disabled: bool)

  datatype Outcome = NoSchema | Failed | Effective(schema: Yaml)

  type Fields = map<string, Yaml>

  /* -------------------------------------------------------------- the order */

  /** Strings are ordered by their first difference. */
  predicate NotAfter(a: string, b: string)
  {
    a == "" || (b != "" && (a[0] < b[0] || (a[0] == b[0] && NotAfter(a[1..], b[1..]))))
  }

  /** One name is not after another exactly when it is the beginning of it, or smaller at their first difference. */
  lemma {:induction false} OrderIsLexicographic(a: string, b: string)
    ensures NotAfter(a, b) <==>
            a <= b || exists k :: 0 <= k < |a| && k < |b| && a[..k] == b[..k] && a[k] < b[k]
  {
    if a != "" && b != "" {
      OrderIsLexicographic(a[1..], b[1..]);
      assert a == [a[0]] + a[1..] && b == [b[0]] + b[1..];
      if a[0] < b[0] { assert a[..0] == b[..0]; }
      if a[0] == b[0] {
        forall k | 0 <= k < |a| - 1 && k < |b| - 1 ensures a[1..][..k] == b[1..][..k] <==> a[..k + 1] == b[..k + 1] {
          assert a[..k + 1] == [a[0]] + a[1..][..k] && b[..k + 1] == [b[0]] + b[1..][..k];
          assert a[..k + 1][1..] == a[1..][..k] && b[..k + 1][1..] == b[1..][..k];
        }
        if k :| 0 <= k < |a| - 1 && k < |b| - 1 && a[1..][..k] == b[1..][..k] && a[1..][k] < b[1..][k] {
          assert a[..k + 1] == b[..k + 1] && a[k + 1] < b[k + 1];
        }
        if k :| 0 <= k < |a| && k < |b| && a[..k] == b[..k] && a[k] < b[k] {
          assert a[1..][..k - 1] == b[1..][..k - 1] && a[1..][k - 1] < b[1..][k - 1];
        }
      }
    }
  }

  lemma {:induction false} OrderIsTotal(a: string, b: string)
    ensures NotAfter(a, b) || NotAfter(b, a)
    ensures NotAfter(a, b) && NotAfter(b, a) <==> a == b
  {
    if a != "" && b != "" {
      OrderIsTotal(a[1..], b[1..]);
      assert a == [a[0]] + a[1..] && b == [b[0]] + b[1..];
    }
  }

  lemma {:induction false} OrderIsTransitive(a: string, b: string, c: string)
    requires NotAfter(a, b) && NotAfter(b, c)
    ensures NotAfter(a, c)
  {
    if a != "" && a[0] == b[0] == c[0] { OrderIsTransitive(a[1..], b[1..], c[1..]); }
  }

  predicate Ascending(items: seq<LibraryItem>)
  {
    forall i, j :: 0 <= i < j < |items| ==> NotAfter(items[i].name, items[j].name)
  }

  /** `sorted(..., key=name)`. */
  function Inserted(items: seq<LibraryItem>, x: LibraryItem): (out: seq<LibraryItem>)
    requires Ascending(items)
    ensures Ascending(out) && forall y :: y in out <==> y in items || y == x
  {
    if items == [] || NotAfter(x.name, items[0].name) then
      assert forall j :: 0 <= j < |items| ==> NotAfter(x.name, items[j].name) by { BeforeAll(items, x); }
      [x] + items
    else
      var rest := Inserted(items[1..], x);
      assert forall y :: y in rest ==> NotAfter(items[0].name, y.name) by {
        OrderIsTotal(x.name, items[0].name);
        OrderIsTotal(items[0].name, items[0].name);
      }
      assert items == [items[0]] + items[1..];
      [items[0]] + rest
  }

  lemma BeforeAll(items: seq<LibraryItem>, x: LibraryItem)
    requires Ascending(items) && (items == [] || NotAfter(x.name, items[0].name))
    ensures forall j :: 0 <= j < |items| ==> NotAfter(x.name, items[j].name)
  {
    forall j | 0 < j < |items| ensures NotAfter(x.name, items[j].name) {
      OrderIsTransitive(x.name, items[0].name, items[j].name);
    }
  }

  /* --------------------------------------------------------- what counts */

  function BaseName(path: string): (f: string)
    ensures '/' !in f
  {
    if path == "" || path[|path| - 1] == '/' then "" else BaseName(path[..|path| - 1]) + [path[|path| - 1]]
  }

  /** The base name is what follows the last slash. */
  lemma {:induction false} BaseNameFollowsSlash(path: string)
    ensures exists d: string :: path == d + BaseName(path) && (d == "" || d[|d| - 1] == '/')
  {
    if path == "" || path[|path| - 1] == '/' {
      assert path == path + "";
    } else {
      BaseNameFollowsSlash(path[..|path| - 1]);
      var d: string :| path[..|path| - 1] == d + BaseName(path[..|path| - 1]) && (d == "" || d[|d| - 1] == '/');
      assert path == d + BaseName(path);
    }
  }

  predicate HasNonDot(s: string)
  {
    exists i :: 0 <= i < |s| && s[i] != '.'
  }

  /** Where the extension of a file name starts: its last dot, unless only dots come before it. */
  function DotAt(f: string): (n: nat)
    ensures n <= |f| && (n < |f| ==> f[n] == '.' && '.' !in f[n + 1..])
  {
    if f == "" then 0
    else if f[|f| - 1] == '.' then (if HasNonDot(f[..|f| - 1]) then |f| - 1 else |f|)
    else
      var n := DotAt(f[..|f| - 1]);
      if n < |f| - 1 then n else |f|
  }

  /** `_is_schema_extension_item`. */
  predicate IsExtension(item: LibraryItem, schemaName: string)
  {
    item.isItem &&
    var f := BaseName(item.name);
    var (name, extension) := (f[..DotAt(f)], f[DotAt(f)..]);
    var prefix := schemaName + "-";
    extension == ".yaml" && prefix <= name && |name| > |prefix|
  }

  lemma {:induction false} DotBeforeYaml(name: string, tail: string)
    requires HasNonDot(name) && '.' !in tail
    ensures DotAt(name + "." + tail) == |name|
  {
    var f := name + "." + tail;
    if tail == "" {
      assert f[..|f| - 1] == name;
    } else {
      DotBeforeYaml(name, tail[..|tail| - 1]);
      assert f[..|f| - 1] == name + "." + tail[..|tail| - 1];
    }
  }

  function ExtensionFile(schemaName: string, x: string): string
  {
    schemaName + "-" + x + ".yaml"
  }

  lemma ExtensionHasName(item: LibraryItem, schemaName: string) returns (x: string)
    requires IsExtension(item, schemaName)
    ensures x != "" && BaseName(item.name) == ExtensionFile(schemaName, x)
  {
    var f, prefix := BaseName(item.name), schemaName + "-";
    var name := f[..DotAt(f)];
    x := name[|prefix|..];
    assert f == name + f[DotAt(f)..];
    assert name == prefix + x;
  }

  lemma NamedIsExtension(item: LibraryItem, schemaName: string, x: string)
    requires item.isItem && x != "" && BaseName(item.name) == ExtensionFile(schemaName, x)
    ensures IsExtension(item, schemaName)
  {
    var f, prefix := BaseName(item.name), schemaName + "-";
    var name := prefix + x;
    assert name[|schemaName|] == '-';
    assert f == name + "." + "yaml";
    DotBeforeYaml(name, "yaml");
    assert f[..|name|] == name && f[|name|..] == ".yaml";
  }

  /** Extensions are the items called `<schema>-<something>.yaml`. */
  lemma ExtensionNames(item: LibraryItem, schemaName: string)
    ensures IsExtension(item, schemaName) <==>
            item.isItem && exists x :: x != "" && BaseName(item.name) == ExtensionFile(schemaName, x)
  {
    if IsExtension(item, schemaName) {
      var x := ExtensionHasName(item, schemaName);
    }
    if item.isItem && exists x :: x != "" && BaseName(item.name) == ExtensionFile(schemaName, x) {
      var x :| x != "" && BaseName(item.name) == ExtensionFile(schemaName, x);
      NamedIsExtension(item, schemaName, x);
    }
  }

  function Get(entries: map<string, Yaml>, key: string): Option<Yaml>
  {
    if key in entries then Some(entries[key]) else None
  }

  /** The text at `define/type`. */
  function DefinedType(y: Yaml): Option<string>
  {
    if !y.Mapping? then None
    else match Get(y.entries, "define")
      case Some(Mapping(d)) => (match Get(d, "type") case Some(Text(t)) => Some(t) case _ => None)
      case _ => None
  }

  /** `_has_base_schema_type`. */
  predicate HasBaseType(y: Yaml)
  {
    match DefinedType(y)
    case None => false
    case Some(t) => t == "lmio/schema" || ("lmio/schema/" <= t && |t| > |"lmio/schema/"|)
  }

  /** The document is a mapping with the text at `define/type`. */
  ghost predicate SaysType(y: Yaml, t: string)
  {
    exists es, d :: y == Mapping(es) && ("define", Mapping(d)) in es.Items && ("type", Text(t)) in d.Items
  }

  lemma DefinedTypeExactly(y: Yaml, t: string)
    ensures DefinedType(y) == Some(t) <==> SaysType(y, t)
  {
    if DefinedType(y) == Some(t) {
      var es := y.entries;
      var d := es["define"].entries;
      assert ("define", Mapping(d)) in es.Items && ("type", Text(t)) in d.Items;
    }
  }

  /** A base schema says that it is a schema, or a schema of some subtype with a name. */
  lemma BaseTypeExactly(y: Yaml)
    ensures HasBaseType(y) <==>
            SaysType(y, "lmio/schema") || exists sub: string :: sub != "" && SaysType(y, "lmio/schema/" + sub)
  {
    forall t ensures DefinedType(y) == Some(t) <==> SaysType(y, t) { DefinedTypeExactly(y, t); }
    if HasBaseType(y) && DefinedType(y) != Some("lmio/schema") {
      var t := DefinedType(y).value;
      var sub := t[|"lmio/schema/"|..];
      assert t == "lmio/schema/" + sub;
    }
    if sub: string :| sub != "" && SaysType(y, "lmio/schema/" + sub) {
      assert "lmio/schema/" <= "lmio/schema/" + sub;
    }
  }

  /** `_validate_base_schema`. */
  predicate ValidBase(y: Yaml)
  {
    y.Mapping? && HasBaseType(y) && "fields" in y.entries && y.entries["fields"].Mapping?
  }

  lemma ValidBaseExactly(y: Yaml)
    ensures ValidBase(y) <==> HasBaseType(y) && exists es, fs :: y == Mapping(es) && ("fields", Mapping(fs)) in es.Items
  {
    if ValidBase(y) {
      assert ("fields", Mapping(y.entries["fields"].entries)) in y.entries.Items;
    }
  }

  /** The fields an item contributes, or nothing if the item is skipped. */
  function Contribution(files: map<string, Reading>, item: LibraryItem): Fields
  {
    if item.disabled || item.name !in files then map[]
    else match files[item.name]
      case Document(Mapping(es)) =>
        if DefinedType(Mapping(es)) == Some("lmio/schema-extension") && "fields" in es && es["fields"].Mapping?
        then es["fields"].entries else map[]
      case _ => map[]
  }

  /** The item is read as an extension whose `fields` has the field with that definition. */
  ghost predicate Defines(reading: Reading, field: string, definition: Yaml)
  {
    exists es, fs ::
      && reading == Document(Mapping(es)) && SaysType(Mapping(es), "lmio/schema-extension")
      && ("fields", Mapping(fs)) in es.Items && (field, definition) in fs.Items
  }

  /** An item contributes a definition exactly when it is enabled and is read as an extension that has it. */
  lemma ContributionExactly(files: map<string, Reading>, item: LibraryItem, field: string, definition: Yaml)
    ensures (field, definition) in Contribution(files, item).Items <==>
            !item.disabled && item.name in files && Defines(files[item.name], field, definition)
  {
    if !item.disabled && item.name in files && files[item.name].Document? && files[item.name].content.Mapping? {
      var es := files[item.name].content.entries;
      DefinedTypeExactly(Mapping(es), "lmio/schema-extension");
      if (field, definition) in Contribution(files, item).Items {
        var fs := es["fields"].entries;
        assert ("fields", Mapping(fs)) in es.Items && (field, definition) in fs.Items;
      }
    }
  }

  /* --------------------------------------------------------------- the merge */

  /** Some item other than the base contributes the field. */
  ghost predicate Offered(files: map<string, Reading>, items: seq<LibraryItem>, field: string)
  {
    exists item :: item in items && field in Contribution(files, item)
  }

  /** The item contributes the field, and no item with a smaller name does. */
  ghost predicate Decides(files: map<string, Reading>, items: seq<LibraryItem>, item: LibraryItem, field: string)
  {
    && item in items && field in Contribution(files, item)
    && forall other :: other in items && field in Contribution(files, other) ==> NotAfter(item.name, other.name)
  }

  /**
   The base fields stay as they are, and every other field is the one of the smallest-named item that
   contributes it.
   */
  ghost predicate IsMerge(base: Fields, files: map<string, Reading>, items: seq<LibraryItem>, merged: Fields)
  {
    && (forall f :: f in base ==> f in merged && merged[f] == base[f])
    && (forall f :: f !in base ==> MergedAt(files, items, merged, f))
  }

  ghost predicate MergedAt(files: map<string, Reading>, items: seq<LibraryItem>, merged: Fields, f: string)
  {
    if f in merged then exists item :: Decides(files, items, item, f) && merged[f] == Contribution(files, item)[f]
    else !Offered(files, items, f)
  }

  function Folded(base: Fields, files: map<string, Reading>, items: seq<LibraryItem>): Fields
  {
    if items == [] then base else Contribution(files, items[|items| - 1]) + Folded(base, files, items[..|items| - 1])
  }

  /** Merging an item with a larger name into what is merged so far. */
  lemma MergeOne(files: map<string, Reading>, front: seq<LibraryItem>, last: LibraryItem, before: Fields, f: string)
    requires MergedAt(files, front, before, f) && forall x :: x in front ==> NotAfter(x.name, last.name)
    ensures MergedAt(files, front + [last], Contribution(files, last) + before, f)
  {
    var items := front + [last];
    if f in before {
      var item :| Decides(files, front, item, f) && before[f] == Contribution(files, item)[f];
      assert Decides(files, items, item, f);
    } else if f in Contribution(files, last) {
      OrderIsTotal(last.name, last.name);
      assert forall x :: x in front ==> f !in Contribution(files, x);
      assert last in items;
      assert Decides(files, items, last, f);
    }
  }

  lemma {:induction false} FoldedIsMerge(base: Fields, files: map<string, Reading>, items: seq<LibraryItem>)
    requires Ascending(items)
    ensures IsMerge(base, files, items, Folded(base, files, items))
  {
    if items != [] {
      var front, last := items[..|items| - 1], items[|items| - 1];
      FoldedIsMerge(base, files, front);
      assert items == front + [last];
      forall f | f !in base ensures MergedAt(files, items, Folded(base, files, items), f) {
        MergeOne(files, front, last, Folded(base, files, front), f);
      }
    }
  }

  /** Listings with the same items, in whatever order, have the same merge, if their names are unique. */
  lemma MergeIgnoresOrder(base: Fields, files: map<string, Reading>, items: seq<LibraryItem>, others: seq<LibraryItem>,
                          a: Fields, b: Fields)
    requires forall x :: x in items <==> x in others
    requires forall x, y :: x in items && y in items && x.name == y.name ==> x == y
    requires IsMerge(base, files, items, a) && IsMerge(base, files, others, b)
    ensures a == b
  {
    forall f | f in a || f in b ensures f in a && f in b && a[f] == b[f] {
      if f !in base {
        assert Offered(files, items, f) <==> Offered(files, others, f);
        var x :| Decides(files, items, x, f) && a[f] == Contribution(files, x)[f];
        var y :| Decides(files, others, y, f) && b[f] == Contribution(files, y)[f];
        OrderIsTotal(x.name, y.name);
      }
    }
  }

  /** The extension items of a listing, sorted by name. */
  method ExtensionItems(listing: Option<seq<LibraryItem>>, schemaName: string) returns (items: seq<LibraryItem>)
    ensures Ascending(items)
    ensures forall x :: x in items <==> listing.Some? && x in listing.value && IsExtension(x, schemaName)
  {
    items := [];
    var all := if listing.Some? then listing.value else [];
    for i := 0 to |all|
      invariant Ascending(items) && forall x :: x in items <==> x in all[..i] && IsExtension(x, schemaName)
    {
      assert all[..i + 1] == all[..i] + [all[i]];
      if IsExtension(all[i], schemaName) { items := Inserted(items, all[i]); }
    }
    assert all[..|all|] == all;
  }

  /** The inner loop: adds the fields that are not there yet. */
  method AddFields<K(==, !new), V>(merged0: map<K, V>, fields: map<K, V>) returns (merged: map<K, V>)
    ensures merged == fields + merged0
  {
    merged := merged0;
    var todo := fields.Keys;
    while todo != {}
      invariant forall f :: f in todo ==> f in fields
      invariant forall f :: f in merged <==> f in merged0 || (f in fields && f !in todo)
      invariant forall f :: f in merged ==> merged[f] == if f in merged0 then merged0[f] else fields[f]
      decreases |todo|
    {
      var f :| f in todo;
      todo := todo - {f};
      if f in merged { continue; }
      merged := merged[f := fields[f]];
    }
  }

  /** The loop over the extensions, which skips whatever is not a valid, enabled extension. */
  method MergeExtensions(base: Fields, items: seq<LibraryItem>, files: map<string, Reading>) returns (merged: Fields)
    ensures merged == Folded(base, files, items)
  {
    merged := base;
    for i := 0 to |items|
      invariant merged == Folded(base, files, items[..i])
    {
      assert items[..i + 1][..i] == items[..i];
      var item := items[i];
      if item.disabled { continue; }
      if item.name !in files || !files[item.name].Document? { continue; }
      var extension := files[item.name].content;
      if !extension.Mapping? { continue; }
      if DefinedType(extension) != Some("lmio/schema-extension") { continue; }
      if "fields" !in extension.entries || !extension.entries["fields"].Mapping? { continue; }
      merged := AddFields(merged, extension.entries["fields"].entries);
    }
    assert items[..|items|] == items;
  }

  /**
   `read_schema`, given what the base schema reads as, what the library lists for the extensions, and what
   the listed items read as.
   */
  method ReadSchema(base: Reading, schemaName: string, listing: Option<seq<LibraryItem>>, files: map<string, Reading>)
    returns (r: Outcome)
    ensures r.NoSchema? <==> base.Absent?
    ensures r.Effective? <==> base.Document? && ValidBase(base.content)
    ensures r.Effective? ==>
      && ValidBase(r.schema) && r.schema.entries.Keys == base.content.entries.Keys
      && (forall k :: k in r.schema.entries && k != "fields" ==> r.schema.entries[k] == base.content.entries[k])
      && exists items ::
           && (forall x :: x in items <==> listing.Some? && x in listing.value && IsExtension(x, schemaName))
           && IsMerge(base.content.entries["fields"].entries, files, items, r.schema.entries["fields"].entries)
  {
    if base.Absent? { return NoSchema; }
    if base.Unreadable? || !ValidBase(base.content) { return Failed; }
    var baseFields := base.content.entries["fields"].entries;
    var items := ExtensionItems(listing, schemaName);
    var merged := MergeExtensions(baseFields, items, files);
    FoldedIsMerge(baseFields, files, items);
    r := Effective(Mapping(base.content.entries["fields" := Mapping(merged)]));
    assert r.schema.entries["fields"].entries == merged;
  }
}
