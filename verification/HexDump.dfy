/** `hex_dump`: one line buffer, overwritten in place and flushed every sixteen bytes. */
module HexDump {
  import opened Basics
  import opened Decimals
  import opened CStrings

  const HEX := 8        // column of the first hex pair
  const ASCII := 58     // column of the first character cell
  const WIDTH := 75     // 58 + 16 columns and the newline

  // ================================================================ what a line looks like

  function HexDigit(v: nat): (c: char)
    requires v < 16
    ensures c != ' ' && c != '\0'
  {
    if v < 10 then ('0' as int + v) as char else ('a' as int + v - 10) as char
  }

  function Printable(b: Byte): (c: char)
    ensures c != '\0'
  {
    if 31 < b < 127 then b as char else '.'
  }

  /** `"+%06d"`. */
  function OffsetText(n: nat): (s: string)
    ensures |s| >= 7 && forall k :: 0 <= k < |s| ==> s[k] != '\0'
  {
    var d := Decimal(n);
    "+" + (if |d| < 6 then seq(6 - |d|, _ => '0') else "") + d
  }

  /** The character in column `p` of the line for `chunk`: seven columns of offset, sixteen hex
      pairs, sixteen characters, a newline, and blanks everywhere else. */
  function Column(off: nat, chunk: seq<Byte>, p: nat): (c: char)
    requires |chunk| <= 16 && p < WIDTH
    ensures c != '\0'
  {
    if p < 7 then OffsetText(off)[p]
    else if HEX <= p < HEX + 48 && (p - HEX) / 3 < |chunk| && (p - HEX) % 3 < 2 then
      var b := chunk[(p - HEX) / 3]; HexDigit(if (p - HEX) % 3 == 0 then b / 16 else b % 16)
    else if ASCII <= p < ASCII + 16 && p - ASCII < |chunk| then Printable(chunk[p - ASCII])
    else if p == WIDTH - 1 then '\n'
    else ' '
  }

  ghost predicate IsLine(s: string, off: nat, chunk: seq<Byte>) {
    |chunk| <= 16 && |s| == WIDTH && forall p :: 0 <= p < WIDTH ==> s[p] == Column(off, chunk, p)
  }

  function NumLines(size: nat): nat { (size + 15) / 16 }

  function Chunk(data: seq<Byte>, l: nat): (c: seq<Byte>)
    requires 16 * l <= |data|
    ensures |c| <= 16
  {
    data[16 * l..if 16 * l + 16 <= |data| then 16 * l + 16 else |data|]
  }

  /** Line `l` of a dump shows bytes 16l to 16l + 15. */
  ghost predicate LineOk(line: string, data: seq<Byte>, off: nat, l: nat) {
    16 * l <= |data| && IsLine(line, off + 16 * l, Chunk(data, l))
  }

  /** These are the lines of a dump of `data`, and all of them. */
  ghost predicate IsDump(lines: seq<string>, data: seq<Byte>, off: nat) {
    |lines| == NumLines(|data|) && forall l :: 0 <= l < |lines| ==> LineOk(lines[l], data, off, l)
  }

  // ================================================================ the code

  /** The buffer holds the line for `chunk`, terminated. */
  ghost predicate Holds(buffer: array<char>, off: nat, chunk: seq<Byte>)
    reads buffer
  {
    && buffer.Length == 128 && |chunk| <= 16
    && (forall p :: 0 <= p < WIDTH ==> buffer[p] == Column(off, chunk, p))
    && buffer[WIDTH] == '\0'
  }

  /** Blanks for 58 + 16 columns, then the offset in the first seven. */
  method StartLine(buffer: array<char>, off: nat)
    requires buffer.Length == 128 && buffer[WIDTH - 1] == '\n' && buffer[WIDTH] == '\0'
    modifies buffer
    ensures Holds(buffer, off, [])
  {
    for p := 0 to ASCII + 16
      invariant forall q :: 0 <= q < p ==> buffer[q] == ' '
      invariant buffer[WIDTH - 1] == '\n' && buffer[WIDTH] == '\0'
    {
      buffer[p] := ' ';
    }
    var temp := OffsetText(off);
    for p := 0 to 7
      invariant forall q :: 0 <= q < p ==> buffer[q] == temp[q]
      invariant forall q :: p <= q < ASCII + 16 ==> buffer[q] == ' '
      invariant buffer[WIDTH - 1] == '\n' && buffer[WIDTH] == '\0'
    {
      buffer[p] := temp[p];
    }
  }

  /** Writing the pair and the character of one more byte touches their own cells only. */
  lemma OneMore(off: nat, chunk: seq<Byte>, b: Byte, p: nat)
    requires |chunk| < 16 && p < WIDTH
    ensures var j := |chunk|;
      Column(off, chunk + [b], p) ==
        if p == HEX + 3 * j then HexDigit(b / 16)
        else if p == HEX + 3 * j + 1 then HexDigit(b % 16)
        else if p == ASCII + j then Printable(b)
        else Column(off, chunk, p)
  {
  }

  method PutByte(buffer: array<char>, ghost off: nat, ghost chunk: seq<Byte>, j: nat, b: Byte)
    requires Holds(buffer, off, chunk) && j == |chunk| < 16
    modifies buffer
    ensures Holds(buffer, off, chunk + [b])
  {
    forall p | 0 <= p < WIDTH { OneMore(off, chunk, b, p); }
    buffer[HEX + j * 3] := HexDigit(b / 16);
    buffer[HEX + j * 3 + 1] := HexDigit(b % 16);
    buffer[ASCII + j] := Printable(b);
  }

  /** The buffer holds line `l`, filled with the bytes up to position `i`. */
  ghost predicate Filled(buffer: array<char>, data: seq<Byte>, offset: nat, l: nat, i: nat)
    reads buffer
  {
    16 * l <= i <= |data| && i <= 16 * l + 16 && Holds(buffer, offset + 16 * l, data[16 * l..i])
  }

  /** The first `l` lines have been printed. */
  ghost predicate Printed(lines: seq<string>, data: seq<Byte>, offset: nat, l: nat) {
    |lines| == l && forall k :: 0 <= k < l ==> LineOk(lines[k], data, offset, k)
  }

  /** Line `l`, which begins at byte `i`, is started in the buffer that line `l - 1` leaves. */
  method NewLine(buffer: array<char>, ghost data: seq<Byte>, offset: nat, ghost l: nat, i: nat)
    requires buffer.Length == 128 && buffer[WIDTH - 1] == '\n' && buffer[WIDTH] == '\0'
    requires i == 16 * l <= |data|
    modifies buffer
    ensures Filled(buffer, data, offset, l, i)
  {
    StartLine(buffer, i + offset);
    assert data[16 * l..i] == [];
  }

  /** The loop body without the flush: byte `i` goes into cell `j` of the line. */
  method PutNext(buffer: array<char>, data: seq<Byte>, ghost offset: nat, ghost l: nat, i: nat, j: nat)
    requires Filled(buffer, data, offset, l, i) && i == 16 * l + j < |data| && j < 16
    modifies buffer
    ensures Filled(buffer, data, offset, l, i + 1)
  {
    PutByte(buffer, offset + 16 * l, data[16 * l..i], j, data[i]);
    assert data[16 * l..i] + [data[i]] == data[16 * l..i + 1];
  }

  /** `printf("%s", buffer)` on a complete line appends that line to the output. */
  method Flush(
      buffer: array<char>, ghost data: seq<Byte>, ghost offset: nat, ghost l: nat, ghost i: nat, lines: seq<string>)
    returns (r: seq<string>)
    requires Filled(buffer, data, offset, l, i) && 16 * l < i && (i == |data| || i == 16 * l + 16)
    requires Printed(lines, data, offset, l)
    ensures Printed(r, data, offset, l + 1) && buffer[WIDTH - 1] == '\n' && buffer[WIDTH] == '\0'
  {
    var line := CString(buffer[..]);
    CStringPrefix(buffer[..], WIDTH);
    assert data[16 * l..i] == Chunk(data, l);
    assert LineOk(line, data, offset, l);
    r := lines + [line];
  }

  /** `hex_dump`: the lines it prints are the dump of the data, whatever earlier lines have left
      in the buffer. */
  method Print(data: seq<Byte>, offset: nat) returns (lines: seq<string>)
    ensures IsDump(lines, data, offset)
  {
    lines := [];
    var buffer := new char[128](_ => '\0');
    buffer[WIDTH - 1] := '\n';
    NewLine(buffer, data, offset, 0, 0);
    var i, j := 0, 0;
    ghost var l := 0;
    while i < |data|
      invariant 0 <= j <= 16 && i == 16 * l + j <= |data| && (j == 0 <==> i == 0)
      invariant buffer.Length == 128 && Filled(buffer, data, offset, l, i)
      invariant Printed(lines, data, offset, l)
    {
      if j == 16 {
        lines := Flush(buffer, data, offset, l, i, lines);
        j, l := 0, l + 1;
        NewLine(buffer, data, offset, l, i);
      }
      PutNext(buffer, data, offset, l, i, j);
      i, j := i + 1, j + 1;
    }
    if j != 0 {
      lines := Flush(buffer, data, offset, l, i, lines);
    }
  }

  // ================================================================ reading a dump back

  function HexValue(c: char): (v: nat)
    ensures v < 16
  {
    if '0' <= c <= '9' then c as int - '0' as int else if 'a' <= c <= 'f' then c as int - 'a' as int + 10 else 0
  }

  /** The bytes shown in the hex columns of a line, from pair `j` up to the first blank one. */
  function Decode(line: string, j: nat): seq<Byte>
    requires |line| == WIDTH && j <= 16
    decreases 16 - j
  {
    if j == 16 || line[HEX + 3 * j] == ' ' then []
    else [(16 * HexValue(line[HEX + 3 * j]) + HexValue(line[HEX + 3 * j + 1])) as Byte] + Decode(line, j + 1)
  }

  function DecodeAll(lines: seq<string>): seq<Byte>
    requires forall l :: 0 <= l < |lines| ==> |lines[l]| == WIDTH
  {
    if lines == [] then [] else DecodeAll(lines[..|lines| - 1]) + Decode(lines[|lines| - 1], 0)
  }

  lemma HexDigits(v: nat)
    requires v < 16
    ensures HexValue(HexDigit(v)) == v
  {
  }

  /** Pair `j` of the line shows byte `j` of the chunk, or blanks if there is none. */
  ghost predicate Shows(line: string, chunk: seq<Byte>, j: nat)
    requires |line| == WIDTH && j < 16
  {
    if j < |chunk| then
      && line[HEX + 3 * j] != ' '
      && 16 * HexValue(line[HEX + 3 * j]) + HexValue(line[HEX + 3 * j + 1]) == chunk[j]
    else line[HEX + 3 * j] == ' '
  }

  lemma LineShows(line: string, off: nat, chunk: seq<Byte>, j: nat)
    requires j < 16 && IsLine(line, off, chunk)
    ensures Shows(line, chunk, j)
  {
    if j < |chunk| {
      HexDigits(chunk[j] / 16);
      HexDigits(chunk[j] % 16);
    }
  }

  lemma {:induction false} DecodeLine(line: string, chunk: seq<Byte>, j: nat)
    requires |line| == WIDTH && j <= |chunk| <= 16 && forall j :: 0 <= j < 16 ==> Shows(line, chunk, j)
    ensures Decode(line, j) == chunk[j..]
    decreases 16 - j
  {
    if j < 16 {
      assert Shows(line, chunk, j);
      if j < |chunk| {
        DecodeLine(line, chunk, j + 1);
        assert chunk[j..] == [chunk[j]] + chunk[j + 1..];
      }
    }
  }

  lemma LineDecodes(line: string, off: nat, chunk: seq<Byte>)
    requires IsLine(line, off, chunk)
    ensures Decode(line, 0) == chunk
  {
    forall j | 0 <= j < 16 ensures Shows(line, chunk, j) { LineShows(line, off, chunk, j); }
    DecodeLine(line, chunk, 0);
  }

  function UpTo(data: seq<Byte>, k: nat): (n: nat)
    ensures n <= |data|
  {
    if 16 * k <= |data| then 16 * k else |data|
  }

  lemma ChunkExtends(data: seq<Byte>, k: nat)
    requires k < NumLines(|data|)
    ensures data[..UpTo(data, k)] + Chunk(data, k) == data[..UpTo(data, k + 1)]
  {
  }

  /** Lines that each decode to their sixteen bytes decode to all bytes. */
  lemma {:induction false} DecodePrefix(data: seq<Byte>, lines: seq<string>, k: nat)
    requires k <= |lines| == NumLines(|data|) && forall l :: 0 <= l < |lines| ==> |lines[l]| == WIDTH
    requires forall l :: 0 <= l < |lines| ==> Decode(lines[l], 0) == Chunk(data, l)
    ensures DecodeAll(lines[..k]) == data[..UpTo(data, k)]
  {
    if k > 0 {
      DecodePrefix(data, lines, k - 1);
      assert lines[..k][..k - 1] == lines[..k - 1];
      assert Decode(lines[k - 1], 0) == Chunk(data, k - 1);
      ChunkExtends(data, k - 1);
    }
  }

  /** Round trip: there are as many lines as it takes to show sixteen bytes each, and decoding
      the hex columns of the printed lines gives back exactly the data. */
  lemma RoundTrip(lines: seq<string>, data: seq<Byte>, off: nat)
    requires IsDump(lines, data, off)
    ensures |lines| == (|data| + 15) / 16
    ensures (forall l :: 0 <= l < |lines| ==> |lines[l]| == WIDTH) && DecodeAll(lines) == data
  {
    forall l | 0 <= l < |lines| ensures |lines[l]| == WIDTH && Decode(lines[l], 0) == Chunk(data, l) {
      assert LineOk(lines[l], data, off, l);
      LineDecodes(lines[l], off + 16 * l, Chunk(data, l));
    }
    DecodePrefix(data, lines, |lines|);
    assert lines[..|lines|] == lines;
  }

  /** Byte `i` stands in line `i / 16`: in columns 8 and 9 plus three for each byte before it as
      two hex digits, and in column 58 plus one for each as itself if it is printable, else as a
      dot.  The line ends in column 74. */
  lemma ByteShown(lines: seq<string>, data: seq<Byte>, off: nat, i: nat)
    requires IsDump(lines, data, off) && i < |data|
    ensures i / 16 < |lines| && |lines[i / 16]| == 75
    ensures var line, j, b := lines[i / 16], i % 16, data[i];
      && 16 * HexValue(line[8 + 3 * j]) + HexValue(line[9 + 3 * j]) == b
      && line[58 + j] == (if 32 <= b <= 126 then b as char else '.')
      && line[7] == line[10 + 3 * j] == ' ' && line[74] == '\n'
  {
    var l, j := i / 16, i % 16;
    assert LineOk(lines[l], data, off, l);
    var chunk := Chunk(data, l);
    assert chunk[j] == data[i];
    LineShows(lines[l], off + 16 * l, chunk, j);
    OneByte(lines[l], off + 16 * l, chunk, j);
  }

  lemma OneByte(line: string, off: nat, chunk: seq<Byte>, j: nat)
    requires IsLine(line, off, chunk) && j < |chunk|
    ensures line[58 + j] == (if 32 <= chunk[j] <= 126 then chunk[j] as char else '.')
    ensures line[7] == line[10 + 3 * j] == ' ' && line[74] == '\n'
  {
  }

  /** Hex pairs and characters never share a column, and cells without a byte are blank. */
  lemma CellsDisjoint(line: string, off: nat, chunk: seq<Byte>, j: nat, k: nat)
    requires j < 16 && k < 16 && IsLine(line, off, chunk)
    ensures HEX + 3 * j + 1 < ASCII + k && ASCII + k < WIDTH - 1
    ensures line[56] == line[57] == ' '
    ensures j >= |chunk| ==> line[HEX + 3 * j] == line[HEX + 3 * j + 1] == line[ASCII + j] == ' '
  {
  }

  /** The seven offset columns hold the first seven characters of "+%06d".  They show the offset
      exactly if it has at most six digits; longer ones lose their last digits. */
  lemma OffsetShown(line: string, off: nat, chunk: seq<Byte>)
    requires IsLine(line, off, chunk)
    ensures line[0] == '+' && AllDigits(line[1..7]) && (ValueOf(line[1..7]) == off <==> off < 1_000_000)
    ensures off >= 1_000_000 ==> line[1..7] <= Decimal(off)
  {
    var d := Decimal(off);
    var text := OffsetText(off);
    assert line[1..7] == text[1..7];
    DecimalLength(off, 6);
    assert Pow10(6) == 1_000_000 by { assert Pow10(3) == 1000; }
    if |d| <= 6 {
      LeadingZeros(6 - |d|, d);
      DecimalValue(off);
      assert text[1..7] == seq(6 - |d|, _ => '0') + d;
    } else {
      assert text[1..7] == d[..6];
      ValueBound(d[..6]);
    }
  }
}
