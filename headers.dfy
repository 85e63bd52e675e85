/** The header map of `src/http/headers.rs`, the one a `Response` owns. It
    differs from the older copy in `mod.rs` only in that a line without `:` is
    reported as an error instead of a panic. */
module HeaderMap {
  import opened Wrappers
  import opened RustStr
  import opened Http

  /** The error `parse_and_add_header_from` reports for a line without `:`. */
  datatype ParseError = ParseError

  class Headers {
    var entries: map<string, string>

    ghost predicate Valid()
      reads this
    {
      Trimmed(entries)
    }

    /** `Headers::new`: no entries. */
    constructor ()
      ensures Valid() && entries == map[]
    {
      entries := map[];
    }

    /** `parse_and_add_header_from`: a line with a `:` is split at its first
        `:` and added; a line without one is an error and changes nothing. */
    method ParseAndAddHeaderFrom(line: string) returns (r: Result<(), ParseError>)
      requires Valid()
      modifies this
      ensures Valid()
      ensures r.Err? <==> ':' !in line
      ensures r.Err? ==> entries == old(entries)
      ensures r.Ok? ==> entries == InsertField(old(entries), line)
    {
      match SplitOnce(line, ':')
      case Some((key, value)) =>
        AddHeader(key, value);
        r := Ok(());
      case None =>
        r := Err(ParseError);
    }

    /** `get_header`: the stored, trimmed value of exactly this name. */
    function GetHeader(name: string): (r: Option<string>)
      requires Valid()
      reads this
      ensures r.Some? <==> name in entries
      ensures r.Some? ==> r.value == entries[name] && Trim(r.value) == r.value
    {
      Lookup(entries, name)
    }

    /** `add_header`: store the trimmed key with the trimmed value, replacing
        only that key's entry. */
    method AddHeader(key: string, value: string)
      requires Valid()
      modifies this
      ensures Valid()
      ensures entries == Insert(old(entries), key, value)
    {
      InsertTrimmed(entries, key, value);
      entries := Insert(entries, key, value);
    }

    /** `Display`: one `key: value` line per entry, in the map's order. */
    method Display() returns (text: string, ghost order: seq<string>)
      ensures EnumeratesKeys(order, entries.Keys)
      ensures text == RenderHeaders(entries, order)
    {
      text, order := WriteHeaders(entries);
    }
  }
}
