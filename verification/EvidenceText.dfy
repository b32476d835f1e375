/** Event identifiers and list cursors as text. */
module EvidenceText {
  import opened Common
  import Fnv

  const ID_BYTES: nat := 16
  const CURSOR_LIMIT: nat := 80

  type EventId = s: seq<u8> | |s| == 16 witness [0, 0, 0, 0, 0, 0, 0, 0, 0, 0, 0, 0, 0, 0, 0, 0]

  datatype TextError = InvalidEventId | InvalidCursor

  // ------------------------------------------------------------ hexadecimal

  predicate IsHex(c: char) { '0' <= c <= '9' || 'a' <= c <= 'f' }

  predicate AllHex(text: string) { forall i :: 0 <= i < |text| ==> IsHex(text[i]) }

  function HexDigit(n: nat): (c: char)
    requires n < 16
    ensures IsHex(c)
  {
    if n < 10 then '0' + n as char else 'a' + (n - 10) as char
  }

  function Nibble(c: char): (n: nat)
    requires IsHex(c)
    ensures n < 16
  {
    if c <= '9' then (c - '0') as nat else (c - 'a') as nat + 10
  }

  lemma NibbleInverts(n: nat, c: char)
    requires n < 16 && IsHex(c)
    ensures Nibble(c) == n <==> c == HexDigit(n)
  {
  }

  // -------------------------------------------------------------- event ids

  function PrintBytes(bytes: seq<u8>): (text: string)
    ensures |text| == 2 * |bytes| && AllHex(text)
  {
    if bytes == [] then ""
    else
      var last := bytes[|bytes| - 1];
      PrintBytes(bytes[..|bytes| - 1]) + [HexDigit(last / 16), HexDigit(last % 16)]
  }

  function ParseBytes(text: string): (bytes: seq<u8>)
    requires |text| % 2 == 0 && AllHex(text)
    ensures 2 * |bytes| == |text|
  {
    if text == "" then []
    else ParseBytes(text[..|text| - 2]) + [Nibble(text[|text| - 2]) * 16 + Nibble(text[|text| - 1])]
  }

  function ParseId(text: string): Result<EventId, TextError> {
    if |text| != 2 * ID_BYTES || !AllHex(text) then Err(InvalidEventId) else Ok(ParseBytes(text))
  }

  lemma {:induction false} PrintedBytesParse(bytes: seq<u8>)
    ensures ParseBytes(PrintBytes(bytes)) == bytes
  {
    if bytes != [] {
      var n := |bytes| - 1;
      var last, printed := bytes[n], PrintBytes(bytes);
      PrintedBytesParse(bytes[..n]);
      assert printed[..2 * n] == PrintBytes(bytes[..n]);
      NibbleInverts(last / 16, printed[2 * n]);
      NibbleInverts(last % 16, printed[2 * n + 1]);
    }
  }

  lemma {:induction false} ParsedBytesPrint(text: string)
    requires |text| % 2 == 0 && AllHex(text)
    ensures PrintBytes(ParseBytes(text)) == text
  {
    if text != "" {
      var n := |text| - 2;
      var bytes := ParseBytes(text);
      ParsedBytesPrint(text[..n]);
      assert bytes[..|bytes| - 1] == ParseBytes(text[..n]);
      NibbleInverts(bytes[|bytes| - 1] / 16, text[n]);
      NibbleInverts(bytes[|bytes| - 1] % 16, text[n + 1]);
      assert text == text[..n] + [text[n], text[n + 1]];
    }
  }

  /** Parsing and printing event ids are mutual inverses: a text parses to `id` exactly when `id` prints as it. */
  lemma IdRoundTrip(text: string, id: EventId)
    ensures ParseId(text) == Ok(id) <==> text == PrintBytes(id)
  {
    PrintedBytesParse(id);
    if |text| == 2 * ID_BYTES && AllHex(text) {
      ParsedBytesPrint(text);
    }
  }

  method FormatId(id: EventId) returns (text: array<char>)
    ensures text[..] == PrintBytes(id)
  {
    text := new char[2 * ID_BYTES](_ => '0');
    for i := 0 to ID_BYTES
      invariant text.Length == 2 * ID_BYTES && text[..2 * i] == PrintBytes(id[..i])
    {
      text[2 * i] := HexDigit(id[i] / 16);
      text[2 * i + 1] := HexDigit(id[i] % 16);
      assert id[..i + 1][..i] == id[..i];
      assert text[..2 * (i + 1)] == text[..2 * i] + [text[2 * i], text[2 * i + 1]];
    }
    assert id[..ID_BYTES] == id && text[..2 * ID_BYTES] == text[..];
  }

  method ReadId(text: string) returns (r: Result<EventId, TextError>)
    ensures r == ParseId(text)
  {
    if |text| != 2 * ID_BYTES || !AllHex(text) {
      return Err(InvalidEventId);
    }
    var bytes := new u8[ID_BYTES](_ => 0);
    for i := 0 to ID_BYTES
      invariant bytes.Length == ID_BYTES && bytes[..i] == ParseBytes(text[..2 * i])
    {
      bytes[i] := Nibble(text[2 * i]) * 16 + Nibble(text[2 * i + 1]);
      assert text[..2 * (i + 1)][..2 * i] == text[..2 * i];
      assert bytes[..i + 1] == bytes[..i] + [bytes[i]];
    }
    assert text[..2 * ID_BYTES] == text && bytes[..ID_BYTES] == bytes[..];
    return Ok(bytes[..]);
  }

  // ------------------------------------------------------- fixed-width numbers

  function Pow16(n: nat): (r: nat)
    ensures r >= 1
  {
    if n == 0 then 1 else 16 * Pow16(n - 1)
  }

  function PrintHex(value: nat, width: nat): (text: string)
    ensures |text| == width && AllHex(text)
  {
    if width == 0 then "" else PrintHex(value / 16, width - 1) + [HexDigit(value % 16)]
  }

  function HexValue(text: string): (r: nat)
    requires AllHex(text)
    ensures r < Pow16(|text|)
  {
    if text == "" then 0 else HexValue(text[..|text| - 1]) * 16 + Nibble(text[|text| - 1])
  }

  lemma {:induction false} HexRoundTrip(text: string, value: nat)
    requires AllHex(text) && value < Pow16(|text|)
    ensures HexValue(text) == value <==> text == PrintHex(value, |text|)
  {
    if text != "" {
      var n := |text| - 1;
      HexRoundTrip(text[..n], value / 16);
      NibbleInverts(value % 16, text[n]);
      assert text == text[..n] + [text[n]];
      var printed := PrintHex(value, |text|);
      assert text == printed ==> text[..n] == printed[..n] && text[n] == printed[n];
    }
  }

  lemma SixteenDigits()
    ensures Pow16(16) == U64_MAX + 1
  {
    assert Pow16(8) == 0x1_0000_0000;
    assert Pow16(16) == 0x1_0000_0000 * Pow16(8);
  }

  function ParseFixedHex(text: string): Result<u64, TextError> {
    if |text| != 16 || !AllHex(text) then Err(InvalidCursor) else SixteenDigits(); Ok(HexValue(text))
  }

  lemma FixedHexRoundTrip(text: string, value: u64)
    ensures ParseFixedHex(text) == Ok(value) <==> text == PrintHex(value, 16)
  {
    SixteenDigits();
    if |text| == 16 && AllHex(text) {
      HexRoundTrip(text, value);
    }
  }

  // ------------------------------------------------------------------ cursors

  type InterfaceName = seq<u8>

  /** FNV-1a over the interface name, or over a lone dash when every interface is wanted. */
  function FilterHash(filter: Option<InterfaceName>): u64 {
    Fnv.Absorb(Fnv.OFFSET_BASIS, if filter.Some? then filter.value else [0x2d])
  }

  method ComputeFilterHash(filter: Option<InterfaceName>) returns (hash: u64)
    ensures hash == FilterHash(filter)
  {
    var bytes := if filter.Some? then filter.value else [0x2d];
    hash := Fnv.OFFSET_BASIS;
    for i := 0 to |bytes|
      invariant hash == Fnv.Absorb(Fnv.OFFSET_BASIS, bytes[..i])
    {
      assert bytes[..i + 1][..i] == bytes[..i];
      hash := Fnv.Mix(hash, bytes[i]);
    }
    assert bytes[..|bytes|] == bytes;
  }

  /** Names of one length that differ in one byte have different hashes. */
  lemma FiltersTellApart(a: InterfaceName, b: InterfaceName, i: nat)
    requires |a| == |b| && i < |a| && a[i] != b[i] && forall k :: 0 <= k < |a| && k != i ==> a[k] == b[k]
    ensures FilterHash(Some(a)) != FilterHash(Some(b))
  {
    Fnv.OneByteChangesTheHash(Fnv.OFFSET_BASIS, a, b, i);
  }

  /** Asking for every interface hashes like asking for the one named by a lone dash, byte 45. */
  lemma NoFilterIsADash()
    ensures FilterHash(None) == FilterHash(Some([45]))
  {
  }

  datatype Cursor = Cursor(filterHash: u64, lastMs: u64, eventId: EventId)

  function NewCursor(filter: Option<InterfaceName>, lastMs: u64, id: EventId): Cursor {
    Cursor(FilterHash(filter), lastMs, id)
  }

  function PrintCursor(c: Cursor): string {
    "1" + "-" + PrintHex(c.lastMs, 16) + "-" + PrintBytes(c.eventId) + "-" + PrintHex(c.filterHash, 16)
  }

  /** The fields between dashes. */
  function Split(text: string): (fields: seq<string>)
    ensures |fields| >= 1
  {
    if text == "" then [""]
    else
      var rest := Split(text[1..]);
      if text[0] == '-' then [""] + rest else [[text[0]] + rest[0]] + rest[1..]
  }

  function ParseCursor(text: string, filter: Option<InterfaceName>): Result<Cursor, TextError> {
    if !Admissible(text) then Err(InvalidCursor)
    else
      var fields := Split(text);
      if |fields| != 4 || fields[0] != "1" then Err(InvalidCursor)
      else
        var hash := ParseFixedHex(fields[3]);
        var lastMs := ParseFixedHex(fields[1]);
        var id := ParseId(fields[2]);
        if hash.Err? || lastMs.Err? || id.Err? then Err(InvalidCursor)
        else if hash.value != FilterHash(filter) then Err(InvalidCursor)
        else Ok(Cursor(hash.value, lastMs.value, id.value))
  }

  function Join(fields: seq<string>): string
    requires fields != []
  {
    if |fields| == 1 then fields[0] else fields[0] + "-" + Join(fields[1..])
  }

  lemma {:induction false} JoinSplit(text: string)
    ensures Join(Split(text)) == text
  {
    if text != "" {
      JoinSplit(text[1..]);
      var rest := Split(text[1..]);
      if text[0] == '-' {
        assert ([""] + rest)[1..] == rest;
        assert Join(Split(text)) == "" + "-" + Join(rest);
        assert text == "-" + text[1..];
      } else {
        var fields := [[text[0]] + rest[0]] + rest[1..];
        assert fields[1..] == rest[1..];
        assert Join(fields) == [text[0]] + Join(rest);
      }
    }
  }

  ghost predicate NoDash(text: string) { forall i :: 0 <= i < |text| ==> text[i] != '-' }

  lemma {:induction false} SplitWord(text: string)
    requires NoDash(text)
    ensures Split(text) == [text]
  {
    if text != "" {
      SplitWord(text[1..]);
      assert [text[0]] + text[1..] == text;
    }
  }

  lemma {:induction false} SplitPrefix(word: string, rest: string)
    requires NoDash(word)
    ensures Split(word + "-" + rest) == [word] + Split(rest)
  {
    var text := word + "-" + rest;
    if word == "" {
      assert text[1..] == rest;
    } else {
      SplitPrefix(word[1..], rest);
      assert text[1..] == word[1..] + "-" + rest;
      assert [text[0]] + word[1..] == word;
    }
  }

  lemma CursorFields(version: string, lastMs: string, id: string, hash: string)
    requires NoDash(version) && NoDash(lastMs) && NoDash(id) && NoDash(hash)
    ensures Split(version + "-" + lastMs + "-" + id + "-" + hash) == [version, lastMs, id, hash]
  {
    var tail1 := id + "-" + hash;
    var tail2 := lastMs + "-" + tail1;
    assert version + "-" + lastMs + "-" + id + "-" + hash == version + "-" + tail2;
    SplitPrefix(version, tail2);
    SplitPrefix(lastMs, tail1);
    SplitPrefix(id, hash);
    SplitWord(hash);
  }

  lemma JoinFour(fields: seq<string>)
    requires |fields| == 4
    ensures Join(fields) == fields[0] + "-" + fields[1] + "-" + fields[2] + "-" + fields[3]
  {
    assert fields[1..][1..] == fields[2..] && fields[2..][1..] == fields[3..];
    assert Join(fields[3..]) == fields[3];
    assert Join(fields[2..]) == fields[2] + "-" + fields[3];
  }

  predicate Admissible(text: string) {
    |text| <= CURSOR_LIMIT && forall i :: 0 <= i < |text| ==> text[i] <= '\U{7F}'
  }

  lemma PrintedIsAdmissible(lastMs: string, id: string, hash: string)
    requires |lastMs| == |hash| == 16 && |id| == 32 && AllHex(lastMs) && AllHex(id) && AllHex(hash)
    ensures Admissible("1" + "-" + lastMs + "-" + id + "-" + hash)
  {
    assert forall c: char :: IsHex(c) ==> c <= '\U{7F}';
  }

  lemma PrintedParses(c: Cursor, filter: Option<InterfaceName>)
    requires c.filterHash == FilterHash(filter)
    ensures ParseCursor(PrintCursor(c), filter) == Ok(c)
  {
    var lastMs, id, hash := PrintHex(c.lastMs, 16), PrintBytes(c.eventId), PrintHex(c.filterHash, 16);
    PrintedIsAdmissible(lastMs, id, hash);
    CursorFields("1", lastMs, id, hash);
    FixedHexRoundTrip(lastMs, c.lastMs);
    FixedHexRoundTrip(hash, c.filterHash);
    IdRoundTrip(id, c.eventId);
  }

  lemma ParsedPrints(text: string, filter: Option<InterfaceName>)
    requires ParseCursor(text, filter).Ok?
    ensures var c := ParseCursor(text, filter).value; text == PrintCursor(c) && c.filterHash == FilterHash(filter)
  {
    var c := ParseCursor(text, filter).value;
    var fields := Split(text);
    JoinSplit(text);
    JoinFour(fields);
    FixedHexRoundTrip(fields[1], c.lastMs);
    FixedHexRoundTrip(fields[3], c.filterHash);
    IdRoundTrip(fields[2], c.eventId);
  }

  /** A text parses to a cursor for a filter exactly when that cursor belongs to the filter and prints as the text. */
  lemma CursorRoundTrip(text: string, filter: Option<InterfaceName>, c: Cursor)
    ensures ParseCursor(text, filter) == Ok(c) <==> text == PrintCursor(c) && c.filterHash == FilterHash(filter)
  {
    if ParseCursor(text, filter) == Ok(c) {
      ParsedPrints(text, filter);
    }
    if c.filterHash == FilterHash(filter) {
      PrintedParses(c, filter);
    }
  }

  /** A cursor printed for one interface is refused for a name that differs from it in one byte. */
  lemma ForeignCursorIsRefused(a: InterfaceName, b: InterfaceName, i: nat, lastMs: u64, id: EventId)
    requires |a| == |b| && i < |a| && a[i] != b[i] && forall k :: 0 <= k < |a| && k != i ==> a[k] == b[k]
    ensures ParseCursor(PrintCursor(NewCursor(Some(a), lastMs, id)), Some(b)) == Err(InvalidCursor)
    ensures ParseCursor(PrintCursor(NewCursor(Some(a), lastMs, id)), Some(a)) == Ok(NewCursor(Some(a), lastMs, id))
  {
    var text := PrintCursor(NewCursor(Some(a), lastMs, id));
    FiltersTellApart(a, b, i);
    CursorRoundTrip(text, Some(a), NewCursor(Some(a), lastMs, id));
    if ParseCursor(text, Some(b)).Ok? {
      ParsedPrints(text, Some(b));
      OneHash(NewCursor(Some(a), lastMs, id), ParseCursor(text, Some(b)).value);
      assert false;
    }
  }

  lemma LastWord(front: string, word: string, text: string)
    requires text == front + word && |word| == 16
    ensures text[|text| - 16..] == word
  {
  }

  /** A printed cursor determines the filter it belongs to. */
  lemma OneHash(c: Cursor, d: Cursor)
    requires PrintCursor(c) == PrintCursor(d)
    ensures c.filterHash == d.filterHash
  {
    var x, y := PrintHex(c.filterHash, 16), PrintHex(d.filterHash, 16);
    LastWord("1" + "-" + PrintHex(c.lastMs, 16) + "-" + PrintBytes(c.eventId) + "-", x, PrintCursor(c));
    LastWord("1" + "-" + PrintHex(d.lastMs, 16) + "-" + PrintBytes(d.eventId) + "-", y, PrintCursor(c));
    FixedHexRoundTrip(x, c.filterHash);
    FixedHexRoundTrip(x, d.filterHash);
  }
}
