/** The `http` module root (`src/http/mod.rs`): the line terminator, the header
    map's operations as values (insertion, lookup, the `Key: Value` lines a map
    renders to), and the older `Headers` type that `Request::load` fills. */
module Http {
  import opened Wrappers
  import opened RustStr

  /** The line terminator of HTTP/1.1 messages (section 2.2 of RFC 2616). */
  const CRLF: string := "\r\n"

  // ------------------------------------------------------ header maps as values

  /** A header map keeps only trimmed keys and trimmed values. */
  ghost predicate Trimmed(m: map<string, string>) {
    forall k :: k in m ==> Trim(k) == k && Trim(m[k]) == m[k]
  }

  /** `add_header`: the trimmed key mapped to the trimmed value. */
  function Insert(m: map<string, string>, key: string, value: string): map<string, string> {
    m[Trim(key) := Trim(value)]
  }

  /** Adding keeps a map trimmed. */
  lemma InsertTrimmed(m: map<string, string>, key: string, value: string)
    requires Trimmed(m)
    ensures Trimmed(Insert(m, key, value))
  {
    TrimIdempotent(key);
    TrimIdempotent(value);
  }

  /** `get_header`: an exact, case-sensitive lookup. In a trimmed map what it
      finds is trimmed, and a name with whitespace at an end finds nothing. */
  function Lookup(m: map<string, string>, name: string): (r: Option<string>)
    ensures r.Some? <==> name in m
    ensures r.Some? ==> r.value == m[name]
    ensures Trimmed(m) && r.Some? ==> Trim(r.value) == r.value
    ensures Trimmed(m) && Trim(name) != name ==> r == None
  {
    if name in m then Some(m[name]) else None
  }

  /** Looking a header up after adding one: the added value under the trimmed
      key, the earlier answer under any other name; so a repeated key keeps
      its last value and no other entry changes. */
  lemma LookupInsert(m: map<string, string>, key: string, value: string, name: string)
    ensures Lookup(Insert(m, key, value), name)
         == if name == Trim(key) then Some(Trim(value)) else Lookup(m, name)
  {
  }

  /** A name with whitespace at either end is never found in a trimmed map. */
  lemma LookupUntrimmed(m: map<string, string>, name: string)
    requires Trimmed(m)
    requires name != [] && (IsWhitespace(name[0]) || IsWhitespace(name[|name| - 1]))
    ensures Lookup(m, name) == None
  {
  }

  /** A header line split at its first `:` into the raw key and value;
      `None` when the line has no `:`. */
  function FieldParts(line: string): (r: Option<(string, string)>)
    ensures r.None? <==> ':' !in line
    ensures r.Some? ==> line == r.value.0 + ":" + r.value.1 && ':' !in r.value.0
  {
    SplitOnce(line, ':')
  }

  /** The split is at the first `:`; later colons stay in the value. */
  lemma FieldPartsFirstColon(key: string, value: string)
    requires ':' !in key
    ensures FieldParts(key + ":" + value) == Some((key, value))
  {
    SplitOnceAtFirst(key, ':', value);
  }

  /** The name a header line is stored under: its trimmed key. */
  function FieldName(line: string): string
    requires ':' in line
  {
    Trim(FieldParts(line).value.0)
  }

  /** The value a header line stores: its trimmed value. */
  function FieldValue(line: string): string
    requires ':' in line
  {
    Trim(FieldParts(line).value.1)
  }

  /** `parse_header_field`: add the parts of a line that has a `:`. */
  function InsertField(m: map<string, string>, line: string): map<string, string>
    requires ':' in line
  {
    Insert(m, FieldParts(line).value.0, FieldParts(line).value.1)
  }

  /** After a line is added, its name looks up its value ... */
  lemma InsertFieldSame(m: map<string, string>, line: string)
    requires ':' in line
    ensures Lookup(InsertField(m, line), FieldName(line)) == Some(FieldValue(line))
  {
  }

  /** ... and every other name looks up what it did before. */
  lemma InsertFieldOther(m: map<string, string>, line: string, name: string)
    requires ':' in line && name != FieldName(line)
    ensures Lookup(InsertField(m, line), name) == Lookup(m, name)
  {
  }

  /** The header lines, in order, each added with `parse_header_field`. */
  function InsertFields(m: map<string, string>, lines: seq<string>): map<string, string>
    requires forall k :: 0 <= k < |lines| ==> ':' in lines[k]
  {
    if lines == [] then m else InsertField(InsertFields(m, lines[..|lines| - 1]), lines[|lines| - 1])
  }

  /** A line `key:value` stores the trimmed value under the trimmed key, even
      when the value has colons of its own (`Host: localhost:8080`). */
  lemma InsertFieldValueWithColon(m: map<string, string>, key: string, value: string)
    requires ':' !in key
    ensures ':' in key + ":" + value
    ensures Lookup(InsertField(m, key + ":" + value), Trim(key)) == Some(Trim(value))
  {
    FieldPartsFirstColon(key, value);
  }

  /** Dropping the last line keeps what is known about the others. */
  lemma DropLastField(lines: seq<string>, j: nat)
    requires forall k :: 0 <= k < |lines| ==> ':' in lines[k]
    requires j < |lines| - 1
    requires forall k :: j < k < |lines| ==> FieldName(lines[k]) != FieldName(lines[j])
    ensures var init := lines[..|lines| - 1];
      (forall k :: 0 <= k < |init| ==> ':' in init[k])
      && init[j] == lines[j]
      && (forall k :: j < k < |init| ==> FieldName(init[k]) != FieldName(init[j]))
  {
    var init := lines[..|lines| - 1];
    forall k | 0 <= k < |init| ensures ':' in init[k] {
      assert init[k] == lines[k];
    }
    forall k | j < k < |init| ensures FieldName(init[k]) != FieldName(init[j]) {
      assert init[k] == lines[k] && init[j] == lines[j];
    }
  }

  /** For a repeated header name, the last line that carries it decides the value. */
  lemma {:induction false} InsertFieldsLastWins(m: map<string, string>, lines: seq<string>, j: nat)
    requires forall k :: 0 <= k < |lines| ==> ':' in lines[k]
    requires j < |lines|
    requires forall k :: j < k < |lines| ==> FieldName(lines[k]) != FieldName(lines[j])
    ensures Lookup(InsertFields(m, lines), FieldName(lines[j])) == Some(FieldValue(lines[j]))
    decreases |lines|
  {
    var init, last := lines[..|lines| - 1], lines[|lines| - 1];
    if j < |lines| - 1 {
      DropLastField(lines, j);
      InsertFieldsLastWins(m, init, j);
      InsertFieldOther(InsertFields(m, init), last, FieldName(lines[j]));
    } else {
      InsertFieldSame(InsertFields(m, init), last);
    }
  }

  // ------------------------------------------------------------ rendering

  /** The line `Display` writes for one entry. */
  function HeaderLine(key: string, value: string): string {
    key + ": " + value + CRLF
  }

  /** `order` lists every key of `keys` exactly once: an iteration order of the map. */
  ghost predicate EnumeratesKeys(order: seq<string>, keys: set<string>) {
    (forall i :: 0 <= i < |order| ==> order[i] in keys)
    && (forall k :: k in keys ==> k in order)
    && (forall i, j :: 0 <= i < j < |order| ==> order[i] != order[j])
  }

  /** The header lines of `m` written in the order `order`. */
  function RenderHeaders(m: map<string, string>, order: seq<string>): string
    requires forall i :: 0 <= i < |order| ==> order[i] in m
  {
    if order == [] then "" else HeaderLine(order[0], m[order[0]]) + RenderHeaders(m, order[1..])
  }

  /** Writing one more line extends the text by exactly that line. */
  lemma {:induction false} RenderHeadersAppend(m: map<string, string>, order: seq<string>, key: string)
    requires forall i :: 0 <= i < |order| ==> order[i] in m
    requires key in m
    ensures RenderHeaders(m, order + [key]) == RenderHeaders(m, order) + HeaderLine(key, m[key])
    decreases |order|
  {
    if order != [] {
      assert (order + [key])[1..] == order[1..] + [key];
      RenderHeadersAppend(m, order[1..], key);
    }
  }

  /** An iteration order has exactly as many keys as the map: one line per entry. */
  lemma {:induction false} EnumerationSize(order: seq<string>, keys: set<string>)
    requires EnumeratesKeys(order, keys)
    ensures |order| == |keys|
    decreases |order|
  {
    if order != [] {
      var rest := order[1..];
      assert EnumeratesKeys(rest, keys - {order[0]}) by {
        forall k | k in keys - {order[0]} ensures k in rest {
          var i :| 0 <= i < |order| && order[i] == k;
          assert i != 0;
          assert rest[i - 1] == k;
        }
        forall i | 0 <= i < |rest| ensures rest[i] in keys - {order[0]} {
          assert rest[i] == order[i + 1];
        }
      }
      EnumerationSize(rest, keys - {order[0]});
    }
  }

  /** Every entry's line occurs in the rendered text. */
  lemma {:induction false} RenderHeadersHasLine(m: map<string, string>, order: seq<string>, key: string)
    requires forall i :: 0 <= i < |order| ==> order[i] in m
    requires key in order
    ensures key in m
    ensures exists before, after :: RenderHeaders(m, order) == before + HeaderLine(key, m[key]) + after
    decreases |order|
  {
    var text := RenderHeaders(m, order);
    if order[0] == key {
      assert text == "" + HeaderLine(key, m[key]) + RenderHeaders(m, order[1..]);
    } else {
      assert key in order[1..];
      RenderHeadersHasLine(m, order[1..], key);
      var before, after :| RenderHeaders(m, order[1..]) == before + HeaderLine(key, m[key]) + after;
      assert text == (HeaderLine(order[0], m[order[0]]) + before) + HeaderLine(key, m[key]) + after;
    }
  }

  /** The rendered text is a sequence of CRLF-terminated lines: empty, or ending in CRLF. */
  lemma {:induction false} RenderHeadersEndsInCrlf(m: map<string, string>, order: seq<string>)
    requires forall i :: 0 <= i < |order| ==> order[i] in m
    ensures var text := RenderHeaders(m, order);
      (order == [] <==> text == "") && (text != "" ==> |text| >= 2 && text[|text| - 2..] == CRLF)
    decreases |order|
  {
    if order != [] {
      RenderHeadersEndsInCrlf(m, order[1..]);
      var rest := RenderHeaders(m, order[1..]);
      var line := HeaderLine(order[0], m[order[0]]);
      var text := line + rest;
      if rest == "" {
        assert text == line;
      } else {
        assert text[|text| - 2..] == rest[|rest| - 2..];
      }
    }
  }

  /** An empty map renders as the empty string. */
  lemma RenderEmpty(order: seq<string>)
    requires EnumeratesKeys(order, {})
    ensures RenderHeaders(map[], order) == ""
  {
    EnumerationSize(order, {});
  }

  /** The loop of both `Display` impls: write one line per entry, in whatever
      order the map yields its keys; `order` is that order. */
  method WriteHeaders(m: map<string, string>) returns (text: string, ghost order: seq<string>)
    ensures EnumeratesKeys(order, m.Keys)
    ensures text == RenderHeaders(m, order)
  {
    text, order := "", [];
    var remaining := m.Keys;
    while remaining != {}
      invariant remaining <= m.Keys
      invariant forall i :: 0 <= i < |order| ==> order[i] in m && order[i] !in remaining
      invariant forall k :: k in m ==> k in remaining || k in order
      invariant forall i, j :: 0 <= i < j < |order| ==> order[i] != order[j]
      invariant text == RenderHeaders(m, order)
      decreases remaining
    {
      var key :| key in remaining;
      RenderHeadersAppend(m, order, key);
      text := text + HeaderLine(key, m[key]);
      order := order + [key];
      remaining := remaining - {key};
    }
  }

  // ------------------------------------------------------ the older Headers

  /** The `Headers` type of `mod.rs`, which `Request::load` fills line by line. */
  class Headers {
    var entries: map<string, string>

    ghost predicate Valid()
      reads this
    {
      Trimmed(entries)
    }

    /** `Headers::new`: no entries. */
    constructor ()
      ensures Valid() && entries == map[]
    {
      entries := map[];
    }

    /** `parse_header_field`: split at the first `:` and add; a line without
        `:` makes the original panic, so it is excluded here. */
    method ParseHeaderField(line: string)
      requires Valid() && ':' in line
      modifies this
      ensures Valid()
      ensures entries == InsertField(old(entries), line)
    {
      var parts := SplitOnce(line, ':');
      var (key, value) := parts.value;
      AddHeader(key, value);
    }

    /** `get_header`: the stored, trimmed value of exactly this name. */
    function GetHeader(name: string): (r: Option<string>)
      requires Valid()
      reads this
      ensures r.Some? <==> name in entries
      ensures r.Some? ==> r.value == entries[name] && Trim(r.value) == r.value
    {
      Lookup(entries, name)
    }

    /** `add_header`: store the trimmed key with the trimmed value. */
    method AddHeader(key: string, value: string)
      requires Valid()
      modifies this
      ensures Valid()
      ensures entries == Insert(old(entries), key, value)
    {
      InsertTrimmed(entries, key, value);
      entries := Insert(entries, key, value);
    }

    /** `Display`: one `key: value` line per entry, in the map's order. */
    method Display() returns (text: string, ghost order: seq<string>)
      ensures EnumeratesKeys(order, entries.Keys)
      ensures text == RenderHeaders(entries, order)
    {
      text, order := WriteHeaders(entries);
    }
  }
}
