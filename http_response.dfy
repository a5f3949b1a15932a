/// The server's reply to the opening handshake (section 4.1 of RFC 6455) as
/// the WebSocket client reads it: byte by byte into the receive buffer until
/// the first CR LF CR LF, each CR LF-terminated line going into the response
/// header collection.
module HttpResponse {
  import opened Common

  /// A WebHeaderCollection: names compare without regard to ASCII case, so
  /// the map is keyed by the lower-cased name.
  type Headers = map<string, string>

  /// The key under which a line without ':' (the status line) is stored.
  const HTTP_KEY: string := "HTTP"

  const CR: byte := 13
  const LF: byte := 10
  /// `EOL`: CR LF in the low 16 bits of the shift register.
  const EOL: nat := 0x0D0A
  /// `EOF`: CR LF CR LF.
  const EOF: nat := 0x0D0A_0D0A

  function Lookup(h: Headers, name: string): Option<string>
  {
    if AsciiLower(name) in h then Some(h[AsciiLower(name)]) else None
  }

  // ---------------------------------------------------------------------------
  // WebHeaderCollection.Set

  const HEADER_CHARS_MESSAGE: string := "Specified value has invalid HTTP Header characters."
  const NON_ASCII_MESSAGE: string := "Specified value has invalid non-ASCII characters."
  const CONTROL_CHARS_MESSAGE: string := "Specified value has invalid Control characters."
  const CRLF_CHARS_MESSAGE: string := "Specified value has invalid CRLF characters."

  /// The characters a header name may not hold: the separators of section
  /// 2.2 of RFC 2616, space, tab, CR and LF.
  const SEPARATORS: set<char> := {'(', ')', '<', '>', '@', ',', ';', ':', '\\', '"', '\'', '/',
                                  '[', ']', '?', '=', '{', '}', ' ', '\t', '\r', '\n'}

  /// A character a header name may hold: printable ASCII, no separator.
  predicate NameChar(c: char)
  {
    ' ' <= c <= '~' && c !in SEPARATORS
  }

  /// The characters trimmed from both ends of a header value: tab, LF, VT,
  /// FF, CR and space.
  predicate HttpSpace(c: char)
  {
    '\t' <= c <= '\r' || c == ' '
  }

  function TrimHttpStart(s: string): (r: string)
    ensures |r| <= |s| && r == s[|s| - |r|..]
    ensures r == [] || !HttpSpace(r[0])
    ensures forall i :: 0 <= i < |s| - |r| ==> HttpSpace(s[i])
  {
    if s != [] && HttpSpace(s[0]) then TrimHttpStart(s[1..]) else s
  }

  function TrimHttpEnd(s: string): (r: string)
    ensures |r| <= |s| && r == s[..|r|]
    ensures r == [] || !HttpSpace(r[|r| - 1])
    ensures forall i :: |r| <= i < |s| ==> HttpSpace(s[i])
  {
    if s != [] && HttpSpace(s[|s| - 1]) then TrimHttpEnd(s[..|s| - 1]) else s
  }

  /// `value.Trim(HttpTrimCharacters)`.
  function TrimHttp(s: string): (r: string)
    ensures |r| <= |s|
    ensures r == [] || (!HttpSpace(r[0]) && !HttpSpace(r[|r| - 1]))
  {
    var t := TrimHttpStart(s);
    var r := TrimHttpEnd(t);
    assert r != [] ==> r[0] == t[0];
    r
  }

  /// Trimming keeps a value whose ends are no trim characters as it is,
  /// and empties one made only of them.
  lemma TrimHttpKeeps(s: string)
    ensures s != [] && !HttpSpace(s[0]) && !HttpSpace(s[|s| - 1]) ==> TrimHttp(s) == s
    ensures (forall i :: 0 <= i < |s| ==> HttpSpace(s[i])) ==> TrimHttp(s) == []
  {
    if s != [] && !HttpSpace(s[0]) && !HttpSpace(s[|s| - 1]) {
      assert TrimHttpStart(s) == s;
      assert TrimHttpEnd(s) == s;
    }
    if forall i :: 0 <= i < |s| ==> HttpSpace(s[i]) {
      AllSpaceTrimmed(s);
      assert TrimHttpEnd([]) == [];
    }
  }

  lemma {:induction false} AllSpaceTrimmed(s: string)
    requires forall i :: 0 <= i < |s| ==> HttpSpace(s[i])
    ensures TrimHttpStart(s) == []
    decreases |s|
  {
    if s != [] {
      assert forall i :: 0 <= i < |s[1..]| ==> s[1..][i] == s[i + 1];
      AllSpaceTrimmed(s[1..]);
    }
  }

  /// The low byte of a character, as the value check reads it.
  function LowByte(c: char): nat
  {
    (c as int) % 256
  }

  /// The check of a header value, after trimming, from state crlf: 0 in
  /// plain text, 1 after a CR, 2 after a line break. A CR must be followed
  /// by LF, a line break by a space or tab (a folded line), and no other
  /// control character or DEL may appear. The message thrown, if any.
  function FoldCheck(s: string, crlf: nat): Option<string>
    decreases |s|
  {
    if s == [] then (if crlf == 0 then None else Some(CRLF_CHARS_MESSAGE))
    else
      var c := LowByte(s[0]);
      if crlf == 0 then
        if c == 13 then FoldCheck(s[1..], 1)
        else if c == 10 then FoldCheck(s[1..], 2)
        else if c == 127 || (c < 32 && c != 9) then Some(CONTROL_CHARS_MESSAGE)
        else FoldCheck(s[1..], 0)
      else if crlf == 1 then (if c == 10 then FoldCheck(s[1..], 2) else Some(CRLF_CHARS_MESSAGE))
      else if c == 32 || c == 9 then FoldCheck(s[1..], 0)
      else Some(CRLF_CHARS_MESSAGE)
  }

  /// The character at i is allowed where it stands in a header value.
  predicate FoldedAt(s: string, i: nat)
    requires i < |s|
  {
    var c := LowByte(s[i]);
    && (c == 13 ==> i + 1 < |s| && LowByte(s[i + 1]) == 10)
    && (c == 10 ==> i + 1 < |s| && (LowByte(s[i + 1]) == 32 || LowByte(s[i + 1]) == 9))
    && !(c == 127 || (c < 32 && c != 9 && c != 10 && c != 13))
  }

  /// A header value the collection accepts: every CR is followed by LF,
  /// every LF by a space or tab, and there is no other control character.
  predicate Folded(s: string)
  {
    forall i :: 0 <= i < |s| ==> FoldedAt(s, i)
  }

  /// Folded on s is the check at its first k characters and Folded on the
  /// rest, when the k-th character needs nothing of the one before it.
  lemma FoldedSplit(s: string, k: nat)
    requires k <= |s|
    ensures Folded(s) <==> (forall i :: 0 <= i < k ==> FoldedAt(s, i)) && Folded(s[k..])
  {
    forall i | k <= i < |s|
      ensures FoldedAt(s, i) <==> FoldedAt(s[k..], i - k)
    {
      assert s[k..][i - k] == s[i];
      if i + 1 < |s| {
        assert s[k..][i - k + 1] == s[i + 1];
      }
    }
    if Folded(s) {
      forall j | 0 <= j < |s[k..]|
        ensures FoldedAt(s[k..], j)
      {
        assert FoldedAt(s, j + k);
      }
    }
  }

  /// The state machine accepts exactly the Folded values.
  lemma {:induction false} FoldCheckFolded(s: string)
    ensures FoldCheck(s, 0).None? <==> Folded(s)
    decreases |s|
  {
    if s != [] {
      var c := LowByte(s[0]);
      if c == 13 {
        if |s| > 1 && LowByte(s[1]) == 10 {
          assert s[1..][1..] == s[2..];
          assert FoldCheck(s, 0) == FoldCheck(s[2..], 2);
          if |s| > 2 && (LowByte(s[2]) == 32 || LowByte(s[2]) == 9) {
            assert s[2..][1..] == s[3..];
            FoldCheckFolded(s[3..]);
            FoldedSplit(s, 3);
          } else {
            assert !FoldedAt(s, 1);
          }
        } else {
          assert !FoldedAt(s, 0);
        }
      } else if c == 10 {
        if |s| > 1 && (LowByte(s[1]) == 32 || LowByte(s[1]) == 9) {
          FoldCheckFolded(s[2..]);
          assert s[1..][1..] == s[2..];
          FoldedSplit(s, 2);
        } else {
          assert !FoldedAt(s, 0);
        }
      } else if c == 127 || (c < 32 && c != 9) {
        assert !FoldedAt(s, 0);
      } else {
        FoldCheckFolded(s[1..]);
        FoldedSplit(s, 1);
      }
    }
  }

  /// A name the collection accepts: not empty, every character a NameChar.
  predicate ValidName(name: string)
  {
    name != [] && forall i :: 0 <= i < |name| ==> NameChar(name[i])
  }

  /// `name.IndexOfAny(InvalidParamChars) != -1`.
  predicate HasSeparator(s: string)
  {
    s != [] && (s[0] in SEPARATORS || HasSeparator(s[1..]))
  }

  /// A character outside printable ASCII (ContainsNonAsciiChars).
  predicate HasNonAscii(s: string)
  {
    s != [] && (!(' ' <= s[0] <= '~') || HasNonAscii(s[1..]))
  }

  /// The two scans of a name together accept exactly the NameChar strings.
  lemma {:induction false} NameScans(s: string)
    ensures !HasSeparator(s) && !HasNonAscii(s) <==> forall i :: 0 <= i < |s| ==> NameChar(s[i])
    decreases |s|
  {
    if s != [] {
      NameScans(s[1..]);
      assert forall i :: 1 <= i < |s| ==> s[i] == s[1..][i - 1];
    }
  }

  /// `whs[name] = value` (WebHeaderCollection.Set): an empty name throws
  /// ArgumentNullException; a name with a separator, then one with a
  /// character outside printable ASCII, then a value with a control
  /// character out of place once trimmed, throws ArgumentException and
  /// changes nothing; otherwise the trimmed value replaces any earlier value
  /// under the same name.
  function SetHeader(h: Headers, name: string, value: string): (r: Result<Headers>)
    ensures name == [] ==> r == Err(ArgumentNullError("name"))
    ensures r.Err? ==> r.error.ArgumentError? || r.error.ArgumentNullError?
    ensures r.Ok? ==> Lookup(r.value, name) == Some(TrimHttp(value))
    ensures r.Ok? ==> forall n :: AsciiLower(n) != AsciiLower(name) ==> Lookup(r.value, n) == Lookup(h, n)
  {
    if name == [] then Err(ArgumentNullError("name"))
    else if HasSeparator(name) then Err(ArgumentError(HEADER_CHARS_MESSAGE))
    else if HasNonAscii(name) then Err(ArgumentError(NON_ASCII_MESSAGE))
    else match FoldCheck(TrimHttp(value), 0)
      case Some(m) => Err(ArgumentError(m))
      case None => Ok(h[AsciiLower(name) := TrimHttp(value)])
  }

  /// The collection takes a header exactly when its name is valid and its
  /// trimmed value is Folded, whatever it already holds.
  lemma SetHeaderAccepts(h: Headers, name: string, value: string)
    ensures SetHeader(h, name, value).Ok? <==> ValidName(name) && Folded(TrimHttp(value))
  {
    NameScans(name);
    FoldCheckFolded(TrimHttp(value));
  }

  /// The name and value one complete line is stored as: without ':' the
  /// whole line under "HTTP"; otherwise the text before the first ':' and
  /// the text after it, leading white space removed.
  function LineHeader(line: string): (string, string)
  {
    var k := IndexOfFrom(line, ':', 0);
    if k < 0 then (HTTP_KEY, line) else (line[..k], TrimStart(line[k + 1..]))
  }

  /// What one complete line does to the collection.
  function StoreLine(h: Headers, line: string): Result<Headers>
  {
    SetHeader(h, LineHeader(line).0, LineHeader(line).1)
  }

  /// A line that the collection accepts, whatever it already holds.
  predicate StorableLine(line: string)
  {
    ValidName(LineHeader(line).0) && Folded(TrimHttp(LineHeader(line).1))
  }

  /// A line without ':' is the status line: stored under "HTTP", trimmed,
  /// unless it holds a control character out of place.
  lemma StoreStatusLine(h: Headers, line: string)
    requires ':' !in line
    ensures StoreLine(h, line).Ok? <==> Folded(TrimHttp(line))
    ensures StoreLine(h, line).Ok? ==> Lookup(StoreLine(h, line).value, HTTP_KEY) == Some(TrimHttp(line))
  {
    assert IndexOfFrom(line, ':', 0) < 0;
    assert forall i :: 0 <= i < |HTTP_KEY| ==> NameChar(HTTP_KEY[i]);
    SetHeaderAccepts(h, HTTP_KEY, line);
  }

  /// A line with ':' at k and none before: the text before it is the name,
  /// and the value is what follows with white space removed from its
  /// start and trim characters from both ends. An empty or malformed name
  /// is refused.
  lemma StoreHeaderLine(h: Headers, line: string, k: nat)
    requires k < |line| && line[k] == ':' && ':' !in line[..k]
    ensures StoreLine(h, line).Ok? <==> ValidName(line[..k]) && Folded(TrimHttp(TrimStart(line[k + 1..])))
    ensures StoreLine(h, line).Ok? ==> Lookup(StoreLine(h, line).value, line[..k]) == Some(TrimHttp(TrimStart(line[k + 1..])))
    ensures k == 0 ==> StoreLine(h, line) == Err(ArgumentNullError("name"))
  {
    assert forall t :: 0 <= t < k ==> line[t] == line[..k][t];
    assert IndexOfFrom(line, ':', 0) == k;
    SetHeaderAccepts(h, line[..k], TrimStart(line[k + 1..]));
  }

  /// One step of a header store: the collection after a complete line,
  /// or the exception that refuses it.
  type Store = (Headers, seq<byte>) -> Result<Headers>

  /// The lines in order, each stored in turn; the first refused line stops
  /// the run with its exception.
  function Fold(store: Store, h: Headers, lines: seq<seq<byte>>): Result<Headers>
    decreases |lines|
  {
    if lines == [] then Ok(h)
    else match store(h, lines[0])
      case Err(e) => Err(e)
      case Ok(h1) => Fold(store, h1, lines[1..])
  }

  /// readHttpResponse's store: the line's bytes decoded and set into the
  /// collection.
  function StoreBytes(h: Headers, line: seq<byte>): Result<Headers>
  {
    StoreLine(h, ByteChars(line))
  }

  /// The response header collection after the lines: it refuses them
  /// exactly when one of them is not a StorableLine.
  function StoreAll(h: Headers, lines: seq<seq<byte>>): (r: Result<Headers>)
    ensures r.Ok? <==> forall k :: 0 <= k < |lines| ==> StorableLine(ByteChars(lines[k]))
  {
    StoreAllAccepts(h, lines);
    Fold(StoreBytes, h, lines)
  }

  lemma {:induction false} StoreAllAccepts(h: Headers, lines: seq<seq<byte>>)
    ensures Fold(StoreBytes, h, lines).Ok? <==> forall k :: 0 <= k < |lines| ==> StorableLine(ByteChars(lines[k]))
    decreases |lines|
  {
    if lines != [] {
      StoreLineAccepts(h, ByteChars(lines[0]));
      var r := StoreBytes(h, lines[0]);
      if r.Ok? {
        StoreAllAccepts(r.value, lines[1..]);
        assert Fold(StoreBytes, h, lines) == Fold(StoreBytes, r.value, lines[1..]);
        assert forall k :: 0 < k < |lines| ==> lines[1..][k - 1] == lines[k];
      }
    }
  }

  /// The collection takes a line exactly when it is a StorableLine.
  lemma StoreLineAccepts(h: Headers, line: string)
    ensures StoreLine(h, line).Ok? <==> StorableLine(line)
  {
    SetHeaderAccepts(h, LineHeader(line).0, LineHeader(line).1);
  }

  // ---------------------------------------------------------------------------
  // The shift register

  /// `eof = (eof << 8) + b` on a 32-bit `int`: the top byte drops out.
  function ShiftIn(eof: nat, b: byte): nat
  {
    (eof * 256) % TWO_32 + b as nat
  }

  /// The k-th byte from the end of s, or 0 before its start.
  function Back(s: seq<byte>, k: nat): byte
    requires 1 <= k
  {
    if |s| >= k then s[|s| - k] else 0
  }

  /// The last four bytes read, as the register holds them.
  function Last4(s: seq<byte>): nat
  {
    (Back(s, 4) as nat) * 16777216 + (Back(s, 3) as nat) * 65536 + (Back(s, 2) as nat) * 256 + Back(s, 1) as nat
  }

  lemma ShiftInLast4(s: seq<byte>, b: byte)
    ensures ShiftIn(Last4(s), b) == Last4(s + [b])
  {
    var t := s + [b];
    assert Back(t, 1) == b;
    assert Back(t, 2) == Back(s, 1) && Back(t, 3) == Back(s, 2) && Back(t, 4) == Back(s, 3);
    var x, y, z, w := Back(s, 4) as nat, Back(s, 3) as nat, Back(s, 2) as nat, Back(s, 1) as nat;
    var low := y * 16777216 + z * 65536 + w * 256;
    assert Last4(s) * 256 == x * TWO_32 + low;
    assert low < TWO_32;
    assert (Last4(s) * 256) % TWO_32 == low;
  }

  /// CR LF CR LF at j.
  predicate TermAt(s: seq<byte>, j: int)
  {
    0 <= j && j + 4 <= |s| && s[j] == CR && s[j + 1] == LF && s[j + 2] == CR && s[j + 3] == LF
  }

  lemma Last4IsEof(s: seq<byte>)
    ensures Last4(s) == EOF <==> TermAt(s, |s| - 4)
  {
    ByteDigits(Back(s, 1) as int, Back(s, 2) as int, Back(s, 3) as int, Back(s, 4) as int);
    ByteDigits(10, 13, 10, 13);
  }

  lemma Last4IsEol(s: seq<byte>)
    ensures Last4(s) % 65536 == EOL <==> Back(s, 2) == CR && Back(s, 1) == LF
  {
    var x, y, z, w := Back(s, 4) as nat, Back(s, 3) as nat, Back(s, 2) as nat, Back(s, 1) as nat;
    var low := z * 256 + w;
    assert Last4(s) == (x * 256 + y) * 65536 + low;
    LowPart(x * 256 + y, low);
    ByteDigits(w, z, 0, 0);
  }

  /// The remainder modulo 65536 of hi * 65536 + low is low.
  lemma LowPart(hi: nat, low: nat)
    requires low < 65536
    ensures (hi * 65536 + low) % 65536 == low
  {
  }

  // ---------------------------------------------------------------------------
  // readHttpResponse

  /// What readHttpResponse has done: its outcome (the number of bytes
  /// consumed, or the exception), the receive buffer as the loop leaves it,
  /// and the response header collection.
  datatype ReadResult = ReadResult(outcome: Result<nat>, buf: seq<byte>, headers: Headers)

  /// The rest of readHttpResponse from input byte i, register eof, buffer
  /// position pos and collection h: Ok(number of bytes consumed) at the
  /// terminator, IOError if the stream ends first, IndexOutOfRange if a line
  /// overruns the buffer, and the exception of the collection if it refuses
  /// a line; each complete line is stored as soon as its CR LF is read.
  function Read(store: Store, input: seq<byte>, i: nat, eof: nat, pos: nat, buf: seq<byte>, h: Headers): (r: ReadResult)
    ensures |r.buf| == |buf|
    decreases |input| - i
  {
    if i >= |input| then ReadResult(Err(IOError("stream was closed")), buf, h)
    else if pos >= |buf| then ReadResult(Err(IndexOutOfRange), buf, h)
    else
      var b := input[i];
      var buf' := buf[pos := b];
      var eof' := ShiftIn(eof, b);
      if eof' == EOF then ReadResult(Ok(i + 1), buf', h)
      else if eof' % 65536 == EOL then
        if pos + 1 < 2 then ReadResult(Err(ArgumentOutOfRange), buf', h)
        else match store(h, buf'[..pos - 1])
          case Err(e) => ReadResult(Err(e), buf', h)
          case Ok(h') => Read(store, input, i + 1, eof', 0, buf', h')
      else Read(store, input, i + 1, eof', pos + 1, buf', h)
  }

  /// readHttpResponse from the start of the stream.
  function ReadResponse(input: seq<byte>, buf: seq<byte>, h: Headers): ReadResult
  {
    Read(StoreBytes, input, 0, 0, 0, buf, h)
  }

  /// The read succeeds only at the first CR LF CR LF, and fails when the
  /// stream has none.
  lemma {:induction false} ReadStopsAtTerminator(store: Store, input: seq<byte>, i: nat, eof: nat, pos: nat, buf: seq<byte>, h: Headers)
    requires i <= |input| && eof == Last4(input[..i])
    requires forall j :: 0 <= j && j + 4 <= i ==> !TermAt(input, j)
    ensures var r := Read(store, input, i, eof, pos, buf, h).outcome;
      r.Ok? ==> (4 <= r.value <= |input| && TermAt(input, r.value - 4)
        && forall j :: 0 <= j < r.value - 4 ==> !TermAt(input, j))
    ensures (forall j :: 0 <= j < |input| ==> !TermAt(input, j)) ==> Read(store, input, i, eof, pos, buf, h).outcome.Err?
    decreases |input| - i
  {
    if i < |input| && pos < |buf| {
      var b := input[i];
      var eof' := ShiftIn(eof, b);
      assert input[..i + 1] == input[..i] + [b];
      ShiftInLast4(input[..i], b);
      Last4IsEof(input[..i + 1]);
      if eof' == EOF {
        assert TermAt(input[..i + 1], i - 3);
        assert TermAt(input, i - 3);
      } else {
        assert !TermAt(input[..i + 1], i - 3);
        assert !TermAt(input, i - 3);
        if eof' % 65536 == EOL {
          var buf' := buf[pos := b];
          if pos + 1 >= 2 && store(h, buf'[..pos - 1]).Ok? {
            ReadStopsAtTerminator(store, input, i + 1, eof', 0, buf', store(h, buf'[..pos - 1]).value);
          }
        } else {
          ReadStopsAtTerminator(store, input, i + 1, eof', pos + 1, buf[pos := b], h);
        }
      }
    }
  }

  /// The whole-stream form of ReadStopsAtTerminator.
  lemma ReadResponseTerminator(input: seq<byte>, buf: seq<byte>, h: Headers)
    ensures var r := ReadResponse(input, buf, h).outcome;
      r.Ok? ==> (4 <= r.value <= |input| && TermAt(input, r.value - 4)
        && forall j :: 0 <= j < r.value - 4 ==> !TermAt(input, j))
    ensures (forall j :: 0 <= j < |input| ==> !TermAt(input, j)) ==> ReadResponse(input, buf, h).outcome.Err?
  {
    assert input[..0] == [];
    ReadStopsAtTerminator(StoreBytes, input, 0, 0, 0, buf, h);
  }

  // ---------------------------------------------------------------------------
  // Lines

  /// A header line: not empty (an empty line ends the response) and without
  /// CR LF inside.
  predicate ValidLine(l: seq<byte>)
  {
    |l| > 0 && forall k :: 0 <= k < |l| - 1 ==> !(l[k] == CR && l[k + 1] == LF)
  }

  /// Lines, each followed by CR LF, then the empty line.
  function Framed(lines: seq<seq<byte>>): (r: seq<byte>)
    ensures |r| >= 2
  {
    if lines == [] then [CR, LF] else lines[0] + [CR, LF] + Framed(lines[1..])
  }

  /// Reading the bytes of a line: each goes into the buffer at its position
  /// and no line end or terminator is seen.
  lemma {:induction false} ReadLineBytes(store: Store, input: seq<byte>, i: nat, buf: seq<byte>, h: Headers, l: seq<byte>, j: nat, cur: seq<byte>, k: nat, eof: nat)
    requires ValidLine(l) && j <= |l| && i + |l| <= |input| && input[i..i + |l|] == l
    requires i == 0 || input[i - 1] == LF
    requires |l| + 2 <= |buf| && cur == l[..j] + buf[j..]
    requires k == i + j && eof == Last4(input[..k])
    ensures Read(store, input, k, eof, j, cur, h)
      == Read(store, input, i + |l|, Last4(input[..i + |l|]), |l|, l + buf[|l|..], h)
    decreases |l| - j
  {
    if j < |l| {
      var b := input[k];
      LineByteRegister(input, i, l, j, k);
      ReadStep(store, input, k, eof, j, cur, h);
      assert cur[j := b] == l[..j + 1] + buf[j + 1..];
      ReadLineBytes(store, input, i, buf, h, l, j + 1, cur[j := b], k + 1, ShiftIn(eof, b));
    } else {
      assert l[..j] == l;
    }
  }

  /// One byte that ends neither a line nor the response goes into the
  /// buffer at its position.
  lemma ReadStep(store: Store, input: seq<byte>, k: nat, eof: nat, pos: nat, cur: seq<byte>, h: Headers)
    requires k < |input| && pos < |cur|
    requires ShiftIn(eof, input[k]) != EOF && ShiftIn(eof, input[k]) % 65536 != EOL
    ensures Read(store, input, k, eof, pos, cur, h)
      == Read(store, input, k + 1, ShiftIn(eof, input[k]), pos + 1, cur[pos := input[k]], h)
  {
  }

  /// The register after a byte inside a line holds the bytes read so far,
  /// and shows neither a line end nor the terminator.
  lemma LineByteRegister(input: seq<byte>, i: nat, l: seq<byte>, j: nat, k: nat)
    requires ValidLine(l) && j < |l| && i + |l| <= |input| && input[i..i + |l|] == l
    requires i == 0 || input[i - 1] == LF
    requires k == i + j
    ensures input[k] == l[j]
    ensures ShiftIn(Last4(input[..k]), input[k]) == Last4(input[..k + 1])
    ensures Last4(input[..k + 1]) != EOF && Last4(input[..k + 1]) % 65536 != EOL
  {
    var b := input[k];
    assert b == l[j];
    var s := input[..k];
    assert input[..k + 1] == s + [b];
    ShiftInLast4(s, b);
    Last4IsEof(s + [b]);
    Last4IsEol(s + [b]);
    if j == 0 {
      assert Back(s + [b], 2) == (if i == 0 then 0 else LF);
    } else {
      assert Back(s + [b], 2) == l[j - 1];
    }
  }

  /// The input facts ReadLine needs: the line's bytes, then CR LF not
  /// preceded by another CR LF.
  lemma LineInput(input: seq<byte>, i: nat, l: seq<byte>)
    requires ValidLine(l) && i + |l| + 2 <= |input| && input[i..i + |l| + 2] == l + [CR, LF]
    requires i == 0 || input[i - 1] == LF
    ensures input[i..i + |l|] == l
    ensures input[i + |l|] == CR && input[i + |l| + 1] == LF
    ensures !(i + |l| >= 2 && input[i + |l| - 2] == CR && input[i + |l| - 1] == LF)
  {
    var n := |l|;
    assert input[i..i + n] == input[i..i + n + 2][..n];
    assert input[i + n] == input[i..i + n + 2][n];
    assert input[i + n + 1] == input[i..i + n + 2][n + 1];
    if n >= 2 {
      assert input[i + n - 2] == l[n - 2] && input[i + n - 1] == l[n - 1];
    } else {
      assert input[i + n - 1] == l[0];
    }
  }

  /// The receive buffer before and after the CR LF of a line.
  lemma LineBuffer(l: seq<byte>, buf: seq<byte>)
    requires |l| + 2 <= |buf|
    ensures (l + buf[|l|..])[|l| := CR][|l| + 1 := LF] == l + [CR, LF] + buf[|l| + 2..]
    ensures (l + buf[|l|..])[|l| := CR][|l| + 1 := LF][..|l|] == l
  {
  }

  /// What the CR LF that ends a line of n bytes does: the line is stored
  /// and reading goes on from input byte j at buffer position 0, or the
  /// collection refuses it and the read stops with its exception.
  function AfterLine(store: Store, input: seq<byte>, j: nat, buf: seq<byte>, n: nat, h: Headers): ReadResult
    requires j <= |input| && n <= |buf|
  {
    match store(h, buf[..n])
    case Err(e) => ReadResult(Err(e), buf, h)
    case Ok(h') => Read(store, input, j, Last4(input[..j]), 0, buf, h')
  }

  /// A complete line followed by CR LF is stored, or refused, and the
  /// buffer position goes back to 0.
  lemma ReadLine(store: Store, input: seq<byte>, i: nat, buf: seq<byte>, h: Headers, l: seq<byte>)
    requires ValidLine(l) && i + |l| + 2 <= |input| && input[i..i + |l| + 2] == l + [CR, LF]
    requires i == 0 || input[i - 1] == LF
    requires |l| + 2 <= |buf|
    ensures Read(store, input, i, Last4(input[..i]), 0, buf, h)
      == AfterLine(store, input, i + |l| + 2, l + [CR, LF] + buf[|l| + 2..], |l|, h)
  {
    LineInput(input, i, l);
    ReadLineStart(store, input, i, buf, h, l);
    ReadLineEnd(store, input, i + |l|, l, buf, h);
  }

  lemma ReadLineStart(store: Store, input: seq<byte>, i: nat, buf: seq<byte>, h: Headers, l: seq<byte>)
    requires ValidLine(l) && i + |l| <= |input| && input[i..i + |l|] == l
    requires i == 0 || input[i - 1] == LF
    requires |l| + 2 <= |buf|
    ensures Read(store, input, i, Last4(input[..i]), 0, buf, h)
      == Read(store, input, i + |l|, Last4(input[..i + |l|]), |l|, l + buf[|l|..], h)
  {
    assert l[..0] + buf[0..] == buf;
    ReadLineBytes(store, input, i, buf, h, l, 0, buf, i, Last4(input[..i]));
  }

  lemma ReadLineEnd(store: Store, input: seq<byte>, j: nat, l: seq<byte>, buf: seq<byte>, h: Headers)
    requires j + 2 <= |input| && input[j] == CR && input[j + 1] == LF
    requires !(j >= 2 && input[j - 2] == CR && input[j - 1] == LF)
    requires 1 <= |l| && |l| + 2 <= |buf|
    ensures Read(store, input, j, Last4(input[..j]), |l|, l + buf[|l|..], h)
      == AfterLine(store, input, j + 2, l + [CR, LF] + buf[|l| + 2..], |l|, h)
  {
    var cur := l + buf[|l|..];
    LineBuffer(l, buf);
    ReadCrLf(store, input, j, |l|, cur, h);
    assert cur[|l| := CR][|l| + 1 := LF] == l + [CR, LF] + buf[|l| + 2..];
  }

  /// The CR LF that ends a line not preceded by CR LF stores, or has
  /// refused, the line held in the buffer before it.
  lemma ReadCrLf(store: Store, input: seq<byte>, j: nat, n: nat, buf: seq<byte>, h: Headers)
    requires j + 2 <= |input| && input[j] == CR && input[j + 1] == LF
    requires !(j >= 2 && input[j - 2] == CR && input[j - 1] == LF)
    requires 1 <= n && n + 2 <= |buf|
    ensures Read(store, input, j, Last4(input[..j]), n, buf, h)
      == AfterLine(store, input, j + 2, buf[n := CR][n + 1 := LF], n, h)
  {
    var s := input[..j];
    assert input[..j + 1] == s + [CR];
    ShiftInLast4(s, CR);
    Last4IsEof(s + [CR]);
    Last4IsEol(s + [CR]);
    var e1 := Last4(s + [CR]);
    assert Read(store, input, j, Last4(s), n, buf, h) == Read(store, input, j + 1, e1, n + 1, buf[n := CR], h);
    var s1 := s + [CR];
    assert input[..j + 2] == s1 + [LF];
    ShiftInLast4(s1, LF);
    Last4IsEof(s1 + [LF]);
    Last4IsEol(s1 + [LF]);
    var e2 := Last4(s1 + [LF]);
    assert e2 != EOF;
    assert e2 % 65536 == EOL;
  }

  /// After the last line, the empty line ends the response.
  lemma ReadEnd(store: Store, input: seq<byte>, i: nat, buf: seq<byte>, h: Headers)
    requires 2 <= i && i + 2 <= |input| && input[i - 2] == CR && input[i - 1] == LF
    requires input[i] == CR && input[i + 1] == LF && 2 <= |buf|
    ensures Read(store, input, i, Last4(input[..i]), 0, buf, h).outcome == Ok(i + 2)
    ensures Read(store, input, i, Last4(input[..i]), 0, buf, h).headers == h
  {
    var s := input[..i];
    assert input[..i + 1] == s + [CR];
    ShiftInLast4(s, CR);
    Last4IsEof(s + [CR]);
    Last4IsEol(s + [CR]);
    var s1 := s + [CR];
    ShiftInLast4(s1, LF);
    Last4IsEof(s1 + [LF]);
    assert TermAt(s1 + [LF], |s1 + [LF]| - 4);
  }

  /// The input facts ReadLines needs: the first line with its CR LF, then
  /// the rest of the response.
  lemma FramedInput(input: seq<byte>, i: nat, lines: seq<seq<byte>>)
    requires |lines| > 0
    requires i + |Framed(lines)| <= |input| && input[i..i + |Framed(lines)|] == Framed(lines)
    ensures var l, i' := lines[0], i + |lines[0]| + 2;
      && i' + |Framed(lines[1..])| <= |input|
      && input[i..i'] == l + [CR, LF]
      && input[i'..i' + |Framed(lines[1..])|] == Framed(lines[1..])
      && input[i' - 2] == CR && input[i' - 1] == LF
      && |Framed(lines)| == |lines[0]| + 2 + |Framed(lines[1..])|
  {
    var l := lines[0];
    SliceSplit(input, i, l + [CR, LF], Framed(lines[1..]));
    assert input[i + |l|] == input[i..i + |l| + 2][|l|];
    assert input[i + |l| + 1] == input[i..i + |l| + 2][|l| + 1];
  }

  /// A slice that is a concatenation splits into its two parts.
  lemma SliceSplit(s: seq<byte>, i: nat, a: seq<byte>, b: seq<byte>)
    requires i + |a| + |b| <= |s| && s[i..i + |a| + |b|] == a + b
    ensures s[i..i + |a|] == a && s[i + |a|..i + |a| + |b|] == b
  {
    assert s[i..i + |a|] == s[i..i + |a| + |b|][..|a|];
    assert s[i + |a|..i + |a| + |b|] == s[i..i + |a| + |b|][|a|..];
  }

  /// The lines after the first meet what the first ones met.
  lemma LinesTail(lines: seq<seq<byte>>, buf: seq<byte>)
    requires |lines| > 0
    requires forall k :: 0 <= k < |lines| ==> ValidLine(lines[k]) && |lines[k]| + 2 <= |buf|
    ensures ValidLine(lines[0]) && |lines[0]| + 2 <= |buf|
    ensures forall k :: 0 <= k < |lines[1..]| ==> ValidLine(lines[1..][k]) && |lines[1..][k]| + 2 <= |buf|
  {
    assert forall k :: 0 <= k < |lines[1..]| ==> lines[1..][k] == lines[k + 1];
  }

  /// A response made of non-empty lines, each followed by CR LF, then an
  /// empty line, is read to its end with every line stored in order, and
  /// the number of bytes consumed is the length of the response; unless the
  /// collection refuses a line, and then the read fails with its exception.
  lemma {:induction false} ReadLines(store: Store, input: seq<byte>, i: nat, buf: seq<byte>, h: Headers, lines: seq<seq<byte>>)
    requires |lines| > 0
    requires forall k :: 0 <= k < |lines| ==> ValidLine(lines[k]) && |lines[k]| + 2 <= |buf|
    requires i + |Framed(lines)| <= |input| && input[i..i + |Framed(lines)|] == Framed(lines)
    requires i == 0 || input[i - 1] == LF
    ensures var r, s := Read(store, input, i, Last4(input[..i]), 0, buf, h), Fold(store, h, lines);
      && (s.Ok? ==> r.outcome == Ok(i + |Framed(lines)|) && r.headers == s.value)
      && (s.Err? ==> r.outcome == Err(s.error))
    decreases |lines|
  {
    var l := lines[0];
    FramedInput(input, i, lines);
    LinesTail(lines, buf);
    ReadLine(store, input, i, buf, h, l);
    var i', buf' := i + |l| + 2, l + [CR, LF] + buf[|l| + 2..];
    assert buf'[..|l|] == l;
    match store(h, l)
    case Err(e) =>
    case Ok(h1) =>
      assert Fold(store, h, lines) == Fold(store, h1, lines[1..]);
      if |lines| == 1 {
        FramedLast(input, i, lines);
        ReadEnd(store, input, i', buf', h1);
      } else {
        ReadLines(store, input, i', buf', h1, lines[1..]);
      }
  }

  /// A single line followed by the empty line.
  lemma FramedLast(input: seq<byte>, i: nat, lines: seq<seq<byte>>)
    requires |lines| == 1
    requires i + |Framed(lines)| <= |input| && input[i..i + |Framed(lines)|] == Framed(lines)
    ensures var i' := i + |lines[0]| + 2;
      && i' + 2 == i + |Framed(lines)| && i' + 2 <= |input|
      && input[i' - 2] == CR && input[i' - 1] == LF && input[i'] == CR && input[i' + 1] == LF
      && lines == [lines[0]]
  {
    var l := lines[0];
    var i' := i + |l| + 2;
    assert lines[1..] == [];
    FramedInput(input, i, lines);
    assert input[i'] == input[i'..i' + 2][0] && input[i' + 1] == input[i'..i' + 2][1];
  }

  /// readHttpResponse on a response framed as lines and an empty line: the
  /// bytes up to the empty line are consumed and the lines stored, or the
  /// read fails with the exception of the first line the collection refuses.
  lemma ReadResponseLines(input: seq<byte>, buf: seq<byte>, h: Headers, lines: seq<seq<byte>>)
    requires |lines| > 0
    requires forall k :: 0 <= k < |lines| ==> ValidLine(lines[k]) && |lines[k]| + 2 <= |buf|
    requires |Framed(lines)| <= |input| && input[..|Framed(lines)|] == Framed(lines)
    ensures var r, s := ReadResponse(input, buf, h), StoreAll(h, lines);
      && (s.Ok? ==> r.outcome == Ok(|Framed(lines)|) && r.headers == s.value)
      && (s.Err? ==> r.outcome == Err(s.error))
  {
    ReadFramed(StoreBytes, input, buf, h, lines);
  }

  /// ReadLines from the start of the stream, whatever the store.
  lemma ReadFramed(store: Store, input: seq<byte>, buf: seq<byte>, h: Headers, lines: seq<seq<byte>>)
    requires |lines| > 0
    requires forall k :: 0 <= k < |lines| ==> ValidLine(lines[k]) && |lines[k]| + 2 <= |buf|
    requires |Framed(lines)| <= |input| && input[..|Framed(lines)|] == Framed(lines)
    ensures var r, s := Read(store, input, 0, 0, 0, buf, h), Fold(store, h, lines);
      && (s.Ok? ==> r.outcome == Ok(|Framed(lines)|) && r.headers == s.value)
      && (s.Err? ==> r.outcome == Err(s.error))
  {
    StartOfStream(input, |Framed(lines)|);
    ReadLines(store, input, 0, buf, h, lines);
  }

  /// Nothing has been read at the start of the stream.
  lemma StartOfStream(input: seq<byte>, n: nat)
    requires n <= |input|
    ensures Last4(input[..0]) == 0
    ensures input[0..n] == input[..n]
  {
    assert input[..0] == [];
  }
}
