/**
 * The stdio JSON-RPC client (`tools/McpStdioClient`): it normalises the
 * request body's line endings, frames it with a `Content-Length` header,
 * reads the response header byte by byte until CR LF CR LF, parses the
 * length and reads exactly that many body bytes. The server's standard
 * output is an `InputStream` over the bytes it will produce; the process,
 * files and console are parameters or left out.
 */
module StdioClient {
  import opened Common
  import opened Framework

  newtype byte = b: int | 0 <= b < 256

  const CR: byte := 13
  const LF: byte := 10
  /** The header terminator the reader looks for. */
  const Terminator: seq<byte> := [CR, LF, CR, LF]

  // ---------------------------------------------------------------------
  // Body normalisation: Replace("\r\n", "\n").Replace("\r", "\n")
  // ---------------------------------------------------------------------

  /** `s.Replace("\r\n", "\n")`: left to right, without overlaps. */
  function ReplaceCrLf(s: string): string
    decreases |s|
  {
    if s == [] then []
    else if |s| >= 2 && s[0] == '\r' && s[1] == '\n' then "\n" + ReplaceCrLf(s[2..])
    else [s[0]] + ReplaceCrLf(s[1..])
  }

  /** `s.Replace("\r", "\n")`. */
  function ReplaceCr(s: string): (r: string)
    ensures |r| == |s|
    decreases |s|
  {
    if s == [] then [] else [if s[0] == '\r' then '\n' else s[0]] + ReplaceCr(s[1..])
  }

  function NormalizeBody(s: string): string
  {
    ReplaceCr(ReplaceCrLf(s))
  }

  /** The same normalisation in one pass: each CR LF, and each other CR, becomes LF. */
  function LineEndsToLf(s: string): string
    decreases |s|
  {
    if s == [] then []
    else if |s| >= 2 && s[0] == '\r' && s[1] == '\n' then "\n" + LineEndsToLf(s[2..])
    else if s[0] == '\r' then "\n" + LineEndsToLf(s[1..])
    else [s[0]] + LineEndsToLf(s[1..])
  }

  /** The two replacements in a row are the one-pass normalisation. */
  lemma {:induction false} NormalizeIsOnePass(s: string)
    ensures NormalizeBody(s) == LineEndsToLf(s)
    decreases |s|
  {
    if s == [] {
    } else if |s| >= 2 && s[0] == '\r' && s[1] == '\n' {
      var t := ReplaceCrLf(s[2..]);
      assert ReplaceCrLf(s) == "\n" + t;
      assert ("\n" + t)[1..] == t;
      NormalizeIsOnePass(s[2..]);
    } else {
      var t := ReplaceCrLf(s[1..]);
      assert ReplaceCrLf(s) == [s[0]] + t;
      assert ([s[0]] + t)[1..] == t;
      NormalizeIsOnePass(s[1..]);
    }
  }

  /** The second replacement leaves no CR. */
  lemma {:induction false} ReplaceCrHasNoCr(s: string)
    ensures forall i :: 0 <= i < |ReplaceCr(s)| ==> ReplaceCr(s)[i] != '\r'
    decreases |s|
  {
    if s != [] {
      ReplaceCrHasNoCr(s[1..]);
    }
  }

  /** The normalised body holds no CR. */
  lemma NormalizedHasNoCr(s: string)
    ensures forall i :: 0 <= i < |NormalizeBody(s)| ==> NormalizeBody(s)[i] != '\r'
  {
    ReplaceCrHasNoCr(ReplaceCrLf(s));
  }

  /** Without a CR the second replacement changes nothing. */
  lemma {:induction false} ReplaceCrWithoutCr(s: string)
    requires forall i :: 0 <= i < |s| ==> s[i] != '\r'
    ensures ReplaceCr(s) == s
    decreases |s|
  {
    if s != [] {
      ReplaceCrWithoutCr(s[1..]);
      assert [s[0]] + s[1..] == s;
    }
  }

  /** Without a CR the first replacement changes nothing. */
  lemma {:induction false} ReplaceCrLfWithoutCr(s: string)
    requires forall i :: 0 <= i < |s| ==> s[i] != '\r'
    ensures ReplaceCrLf(s) == s
    decreases |s|
  {
    if s != [] {
      ReplaceCrLfWithoutCr(s[1..]);
      assert [s[0]] + s[1..] == s;
    }
  }

  /** Normalising twice is normalising once. */
  lemma NormalizeIdempotent(s: string)
    ensures NormalizeBody(NormalizeBody(s)) == NormalizeBody(s)
  {
    var t := NormalizeBody(s);
    NormalizedHasNoCr(s);
    ReplaceCrLfWithoutCr(t);
    ReplaceCrWithoutCr(t);
  }

  // ---------------------------------------------------------------------
  // Encodings
  // ---------------------------------------------------------------------

  /** The UTF-8 encoding of one Unicode scalar value. */
  function Utf8Char(c: char): (r: seq<byte>)
    ensures 1 <= |r| <= 4
    ensures c as int < 0x80 ==> r == [c as int as byte]
    ensures c as int >= 0x80 ==> forall i :: 0 <= i < |r| ==> r[i] >= 0x80
  {
    var v := c as int;
    if v < 0x80 then [v as byte]
    else if v < 0x800 then [(0xC0 + v / 64) as byte, (0x80 + v % 64) as byte]
    else if v < 0x10000 then [(0xE0 + v / 4096) as byte, (0x80 + (v / 64) % 64) as byte, (0x80 + v % 64) as byte]
    else [(0xF0 + v / 262144) as byte, (0x80 + (v / 4096) % 64) as byte, (0x80 + (v / 64) % 64) as byte, (0x80 + v % 64) as byte]
  }

  /** `Encoding.UTF8.GetBytes`. */
  function Utf8Encode(s: string): (r: seq<byte>)
    ensures |r| >= |s|
    decreases |s|
  {
    if s == [] then [] else Utf8Char(s[0]) + Utf8Encode(s[1..])
  }

  /** A string without CR encodes to bytes without CR: a multi-byte sequence has only bytes from 0x80 up. */
  lemma {:induction false} Utf8WithoutCr(s: string)
    requires forall i :: 0 <= i < |s| ==> s[i] != '\r'
    ensures forall i :: 0 <= i < |Utf8Encode(s)| ==> Utf8Encode(s)[i] != CR
    decreases |s|
  {
    if s != [] {
      Utf8WithoutCr(s[1..]);
      var head := Utf8Char(s[0]);
      assert forall i :: 0 <= i < |head| ==> head[i] != CR;
    }
  }

  /** `Encoding.ASCII.GetBytes`: characters above 0x7F become '?'. */
  function AsciiEncode(s: string): (r: seq<byte>)
    ensures |r| == |s|
    ensures forall i :: 0 <= i < |s| ==> r[i] == if s[i] as int < 0x80 then s[i] as int as byte else 63
  {
    seq(|s|, i requires 0 <= i < |s| => if s[i] as int < 0x80 then s[i] as int as byte else 63)
  }

  /** `Encoding.ASCII.GetString`: bytes above 0x7F become '?'. */
  function AsciiDecode(bs: seq<byte>): (r: string)
    ensures |r| == |bs|
    ensures forall i :: 0 <= i < |bs| ==> r[i] == if bs[i] < 0x80 then bs[i] as int as char else '?'
  {
    seq(|bs|, i requires 0 <= i < |bs| => if bs[i] < 0x80 then bs[i] as int as char else '?')
  }

  // ---------------------------------------------------------------------
  // Framing the request
  // ---------------------------------------------------------------------

  /** The header the client writes: LF LF, not CR LF CR LF, ends it. */
  function Header(length: nat): string
  {
    "Content-Length: " + NatToString(length) + "\n\n"
  }

  /** `Buffer.BlockCopy(src, 0, dst, dstOffset, src.Length)` into a distinct array. */
  method CopyInto(dst: array<byte>, dstOffset: nat, src: seq<byte>)
    requires dstOffset + |src| <= dst.Length
    modifies dst
    ensures forall i :: 0 <= i < dst.Length ==>
              dst[i] == if dstOffset <= i < dstOffset + |src| then src[i - dstOffset] else old(dst[i])
  {
    var i := 0;
    while i < |src|
      invariant 0 <= i <= |src|
      invariant forall j :: 0 <= j < dst.Length ==>
                  dst[j] == if dstOffset <= j < dstOffset + i then src[j - dstOffset] else old(dst[j])
    {
      dst[dstOffset + i] := src[i];
      i := i + 1;
    }
  }

  /** The header and body written together in one buffer. */
  method Frame(body: seq<byte>) returns (combined: array<byte>)
    ensures fresh(combined)
    ensures combined[..] == AsciiEncode(Header(|body|)) + body
  {
    var headerBytes := AsciiEncode(Header(|body|));
    combined := new byte[|headerBytes| + |body|];
    CopyInto(combined, 0, headerBytes);
    CopyInto(combined, |headerBytes|, body);
    assert combined[..] == headerBytes + body;
  }

  /** What the client writes to the server's standard input. */
  function RequestBytes(requestJson: string, noHeader: bool): seq<byte>
  {
    var body := Utf8Encode(NormalizeBody(requestJson));
    if noHeader then body else AsciiEncode(Header(|body|)) + body
  }

  /** The bytes the client sends, framed unless `--no-header` was given. */
  method BuildRequest(requestJson: string, noHeader: bool) returns (sent: seq<byte>)
    ensures sent == RequestBytes(requestJson, noHeader)
  {
    var bodyBytes := Utf8Encode(NormalizeBody(requestJson));
    if noHeader {
      return bodyBytes;
    }
    var combined := Frame(bodyBytes);
    return combined[..];
  }

  /** The header's digits and letters: nothing in it is a CR. */
  lemma HeaderHasNoCr(length: nat)
    ensures forall i :: 0 <= i < |AsciiEncode(Header(length))| ==> AsciiEncode(Header(length))[i] != CR
  {
    var h := Header(length);
    var digits := NatToString(length);
    assert h == "Content-Length: " + digits + "\n\n";
    forall i | 0 <= i < |h|
      ensures h[i] != '\r'
    {
      if i < 16 {
        assert h[i] == "Content-Length: "[i];
      } else if i < 16 + |digits| {
        assert h[i] == digits[i - 16];
      } else {
        assert h[i] == '\n';
      }
    }
  }

  /** Nothing the client sends contains a CR byte. */
  lemma RequestHasNoCr(requestJson: string, noHeader: bool)
    ensures forall i :: 0 <= i < |RequestBytes(requestJson, noHeader)| ==> RequestBytes(requestJson, noHeader)[i] != CR
  {
    var body := Utf8Encode(NormalizeBody(requestJson));
    NormalizedHasNoCr(requestJson);
    Utf8WithoutCr(NormalizeBody(requestJson));
    HeaderHasNoCr(|body|);
  }

  // ---------------------------------------------------------------------
  // The server's output stream
  // ---------------------------------------------------------------------

  type Positive = n: nat | n >= 1 witness 1

  /** A stream over the bytes still to come; one read delivers at most `chunk` of them. */
  class InputStream {
    var remaining: seq<byte>
    const chunk: Positive

    constructor(data: seq<byte>, chunk: Positive)
      ensures remaining == data && this.chunk == chunk
    {
      remaining := data;
      this.chunk := chunk;
    }

    /** `ReadAsync(buffer.AsMemory(offset, count))`: 0 only at the end of the stream (or for a count of 0). */
    method Read(buffer: array<byte>, offset: nat, count: nat) returns (n: nat)
      requires offset + count <= buffer.Length
      modifies this, buffer
      ensures n <= count && n <= |old(remaining)|
      ensures n == 0 <==> count == 0 || old(remaining) == []
      ensures remaining == old(remaining)[n..]
      ensures forall i :: 0 <= i < buffer.Length ==>
                buffer[i] == if offset <= i < offset + n then old(remaining)[i - offset] else old(buffer[i])
    {
      n := if count < chunk then count else chunk;
      if |remaining| < n {
        n := |remaining|;
      }
      CopyInto(buffer, offset, remaining[..n]);
      remaining := remaining[n..];
    }
  }

  // ---------------------------------------------------------------------
  // ReadHeadersAsync
  // ---------------------------------------------------------------------

  predicate EndsWith(s: seq<byte>, t: seq<byte>)
  {
    |t| <= |s| && s[|s| - |t|..] == t
  }

  /** How much of CR LF CR LF the bytes end with: the longest suffix that is a prefix of it. */
  function Overlap(s: seq<byte>): (k: nat)
    ensures k <= 4
  {
    var n := |s|;
    if n >= 4 && s[n - 4] == CR && s[n - 3] == LF && s[n - 2] == CR && s[n - 1] == LF then 4
    else if n >= 3 && s[n - 3] == CR && s[n - 2] == LF && s[n - 1] == CR then 3
    else if n >= 2 && s[n - 2] == CR && s[n - 1] == LF then 2
    else if n >= 1 && s[n - 1] == CR then 1
    else 0
  }

  /** A full overlap is the terminator itself. */
  lemma OverlapFull(s: seq<byte>)
    ensures Overlap(s) == 4 <==> EndsWith(s, Terminator)
  {
    var n := |s|;
    if n >= 4 {
      var tail := s[n - 4..];
      assert tail[0] == s[n - 4] && tail[1] == s[n - 3] && tail[2] == s[n - 2] && tail[3] == s[n - 1];
      if Overlap(s) == 4 {
        assert tail == Terminator;
      }
    }
  }

  /** The counter's update for one byte. */
  function Step(sequence: int, b: byte): int
  {
    if b == CR then (if sequence % 2 == 0 then sequence + 1 else 1)
    else if b == LF then (if sequence % 2 == 1 then sequence + 1 else 0)
    else 0
  }

  /** Short of a full match, one step of the counter is the overlap of one more byte. */
  lemma OverlapStep(s: seq<byte>, b: byte)
    requires Overlap(s) < 4
    ensures Overlap(s + [b]) == Step(Overlap(s), b)
  {
    var t := s + [b];
    var n := |s|;
    assert t[n] == b;
    assert n >= 1 ==> t[n - 1] == s[n - 1];
    assert n >= 2 ==> t[n - 2] == s[n - 2];
    assert n >= 3 ==> t[n - 3] == s[n - 3];
  }

  /** The length of the shortest prefix of `data` from `m` on that ends with the terminator, or `|data|`. */
  function HeaderEnd(data: seq<byte>, m: nat): (r: nat)
    requires m <= |data|
    ensures m <= r <= |data|
    ensures r == |data| || EndsWith(data[..r], Terminator)
    ensures forall k :: m <= k < r ==> !EndsWith(data[..k], Terminator)
    decreases |data| - m
  {
    if EndsWith(data[..m], Terminator) || m == |data| then m else HeaderEnd(data, m + 1)
  }

  /** How many bytes the header reader takes from `data`. */
  function HeaderLength(data: seq<byte>): (r: nat)
    ensures r <= |data|
  {
    HeaderEnd(data, 0)
  }

  /** A length that stops at the first terminator, or at the end when there is none, is the header length. */
  lemma HeaderLengthUnique(data: seq<byte>, n: nat)
    requires n <= |data|
    requires n == |data| || EndsWith(data[..n], Terminator)
    requires forall k :: 0 <= k < n ==> !EndsWith(data[..k], Terminator)
    ensures HeaderLength(data) == n
  {
  }

  /**
   * `ReadHeadersAsync`: reads one byte at a time, keeping every byte, until
   * the counter reaches 4 or the stream ends. It takes exactly the shortest
   * prefix that ends with CR LF CR LF, or everything when none does.
   */
  method ReadHeaders(stream: InputStream) returns (text: string)
    modifies stream
    ensures var data := old(stream.remaining);
            && stream.remaining == data[HeaderLength(data)..]
            && text == AsciiDecode(data[..HeaderLength(data)])
  {
    ghost var data := stream.remaining;
    var ms: seq<byte> := [];
    var buffer := new byte[1];
    var sequence := 0;
    while true
      invariant |ms| <= |data| && ms == data[..|ms|] && stream.remaining == data[|ms|..]
      invariant sequence == Counter(ms) && sequence < 4
      invariant forall k :: 0 <= k <= |ms| ==> !EndsWith(data[..k], Terminator)
      decreases |stream.remaining|
    {
      var read := stream.Read(buffer, 0, 1);
      if read == 0 {
        HeaderLengthUnique(data, |ms|);
        break;
      }
      var b := buffer[0];
      ReadStep(data, ms, b);
      CounterStep(ms, b);
      ms := ms + [b];
      if b == CR {
        sequence := if sequence % 2 == 0 then sequence + 1 else 1;
      } else if b == LF {
        sequence := if sequence % 2 == 1 then sequence + 1 else 0;
      } else {
        sequence := 0;
      }
      if sequence == 4 {
        HeaderLengthUnique(data, |ms|);
        break;
      }
    }
    assert ms == data[..HeaderLength(data)];
    text := AsciiDecode(ms);
  }

  /** The counter `ReadHeaders` holds after reading `s`, from 0. */
  function Counter(s: seq<byte>): int
    decreases |s|
  {
    if s == [] then 0 else Step(Counter(s[..|s| - 1]), s[|s| - 1])
  }

  /** Until the terminator is seen, the counter is the overlap with it. */
  lemma {:induction false} CounterIsOverlap(s: seq<byte>)
    requires forall k :: 0 <= k <= |s| ==> !EndsWith(s[..k], Terminator)
    ensures Counter(s) == Overlap(s) < 4
    decreases |s|
  {
    OverlapFull(s);
    assert s[..|s|] == s;
    if s != [] {
      var init := s[..|s| - 1];
      forall k | 0 <= k <= |init|
        ensures !EndsWith(init[..k], Terminator)
      {
        assert init[..k] == s[..k];
      }
      CounterIsOverlap(init);
      assert init + [s[|s| - 1]] == s;
      OverlapStep(init, s[|s| - 1]);
    }
  }

  /** One byte more: the counter takes one step, and it reaches 4 exactly when the bytes end with the terminator. */
  lemma CounterStep(ms: seq<byte>, b: byte)
    requires forall k :: 0 <= k <= |ms| ==> !EndsWith(ms[..k], Terminator)
    ensures Counter(ms + [b]) == Step(Counter(ms), b)
    ensures Counter(ms + [b]) == 4 <==> EndsWith(ms + [b], Terminator)
  {
    assert (ms + [b])[..|ms|] == ms;
    CounterIsOverlap(ms);
    OverlapStep(ms, b);
    OverlapFull(ms + [b]);
  }

  /** The bytes read so far are a prefix of the stream, and none of their prefixes ends with the terminator. */
  lemma ReadStep(data: seq<byte>, ms: seq<byte>, b: byte)
    requires |ms| < |data| && ms == data[..|ms|] && b == data[|ms|]
    requires forall k :: 0 <= k <= |ms| ==> !EndsWith(data[..k], Terminator)
    ensures ms + [b] == data[..|ms| + 1]
    ensures forall k :: 0 <= k <= |ms| ==> !EndsWith(ms[..k], Terminator)
  {
    assert ms + [b] == data[..|ms| + 1];
    forall k | 0 <= k <= |ms|
      ensures !EndsWith(ms[..k], Terminator)
    {
      assert ms[..k] == data[..k];
    }
  }

  /** A header that ends with the terminator, and nowhere before, is read up to its end whatever follows. */
  lemma HeaderLengthOfFramed(header: seq<byte>, rest: seq<byte>)
    requires EndsWith(header, Terminator)
    requires forall k :: 0 <= k < |header| ==> !EndsWith(header[..k], Terminator)
    ensures HeaderLength(header + rest) == |header|
  {
    var data := header + rest;
    assert data[..|header|] == header;
    forall k | 0 <= k < |header|
      ensures !EndsWith(data[..k], Terminator)
    {
      assert data[..k] == header[..k];
    }
    HeaderLengthUnique(data, |header|);
  }

  /** Bytes without CR never contain the terminator: the header reader takes all of them. */
  lemma HeaderLengthWithoutCr(data: seq<byte>)
    requires forall i :: 0 <= i < |data| ==> data[i] != CR
    ensures HeaderLength(data) == |data|
  {
    forall k | 0 <= k < |data|
      ensures !EndsWith(data[..k], Terminator)
    {
      if k >= 4 {
        assert data[..k][k - 4] == data[k - 4];
      }
    }
    HeaderLengthUnique(data, |data|);
  }

  // ---------------------------------------------------------------------
  // ParseContentLength
  // ---------------------------------------------------------------------

  /** The end of the first line: the position of the first CR or LF, or the length. */
  function LineEnd(s: string): (k: nat)
    ensures k <= |s|
    ensures k < |s| ==> s[k] == '\r' || s[k] == '\n'
    ensures forall j :: 0 <= j < k ==> s[j] != '\r' && s[j] != '\n'
    decreases |s|
  {
    if s == [] || s[0] == '\r' || s[0] == '\n' then 0 else 1 + LineEnd(s[1..])
  }

  /** What follows the first line and its terminator (CR LF, CR or LF). */
  function AfterLine(s: string): (r: string)
    requires s != []
    ensures |r| < |s|
  {
    var k := LineEnd(s);
    if k == |s| then []
    else if s[k] == '\r' && k + 1 < |s| && s[k + 1] == '\n' then s[k + 2..]
    else s[k + 1..]
  }

  /** The lines `StringReader.ReadLine` returns, in order. */
  function Lines(s: string): seq<string>
    decreases |s|
  {
    if s == [] then [] else [s[..LineEnd(s)]] + Lines(AfterLine(s))
  }

  const ContentLengthKey := "Content-Length:"

  /** `key` occurs at `j` in `line`, ignoring case. */
  predicate MatchesAt(line: string, key: string, j: int)
  {
    0 <= j && j + |key| <= |line| && EqualsIgnoreCase(line[j..j + |key|], key)
  }

  /** `line.IndexOf(key, OrdinalIgnoreCase)` from `from` on: the first match, or -1. */
  function IndexOfIgnoreCase(line: string, key: string, from: nat): (r: int)
    requires from <= |line|
    ensures r == -1 || (from <= r && MatchesAt(line, key, r))
    ensures r == -1 ==> forall j :: from <= j ==> !MatchesAt(line, key, j)
    ensures r != -1 ==> forall j :: from <= j < r ==> !MatchesAt(line, key, j)
    decreases |line| - from
  {
    if |line| - from < |key| then -1
    else if MatchesAt(line, key, from) then from
    else IndexOfIgnoreCase(line, key, from + 1)
  }

  /** The length one line declares: the trimmed text after the key's first occurrence, if it parses. */
  function LineLength(line: string): Option<int>
  {
    var idx := IndexOfIgnoreCase(line, ContentLengthKey, 0);
    if idx < 0 then None else TryParseInt32(Trim(line[idx + |ContentLengthKey|..]))
  }

  /** No line before `i` declares a length. */
  predicate FirstDeclaring(lines: seq<string>, i: nat)
    requires i <= |lines|
  {
    forall j :: 0 <= j < i ==> LineLength(lines[j]).None?
  }

  /** The value the first line that gives one gives under `f`, or -1. */
  function FirstValue(lines: seq<string>, f: string -> Option<int>): int
    decreases |lines|
  {
    if lines == [] then -1
    else match f(lines[0])
      case Some(v) => v
      case None => FirstValue(lines[1..], f)
  }

  /** -1 when no line gives a value; otherwise the value of the first line that gives one. */
  lemma {:induction false} FirstValueCases(lines: seq<string>, f: string -> Option<int>)
    ensures (forall i :: 0 <= i < |lines| ==> f(lines[i]).None?) ==> FirstValue(lines, f) == -1
    ensures FirstValue(lines, f) != -1 ==>
              exists i :: 0 <= i < |lines| && f(lines[i]) == Some(FirstValue(lines, f))
                          && forall j :: 0 <= j < i ==> f(lines[j]).None?
    decreases |lines|
  {
    if lines != [] && f(lines[0]).None? {
      FirstValueCases(lines[1..], f);
      if FirstValue(lines, f) != -1 {
        var i :| 0 <= i < |lines| - 1 && f(lines[1..][i]) == Some(FirstValue(lines, f))
                 && forall j :: 0 <= j < i ==> f(lines[1..][j]).None?;
        assert f(lines[i + 1]) == Some(FirstValue(lines, f));
        assert forall j :: 0 <= j < i + 1 ==> f(lines[j]).None? by {
          forall j | 0 <= j < i + 1
            ensures f(lines[j]).None?
          {
            if j > 0 {
              assert lines[j] == lines[1..][j - 1];
            }
          }
        }
      }
    }
  }

  /** The length the first declaring line gives, or -1 when no line declares one. */
  function ContentLengthIn(lines: seq<string>): int
  {
    FirstValue(lines, LineLength)
  }

  /** -1 when no line declares a length; otherwise what the first declaring line declares. */
  lemma ContentLengthInCases(lines: seq<string>)
    ensures (forall i :: 0 <= i < |lines| ==> LineLength(lines[i]).None?) ==> ContentLengthIn(lines) == -1
    ensures ContentLengthIn(lines) != -1 ==>
              exists i :: 0 <= i < |lines| && LineLength(lines[i]) == Some(ContentLengthIn(lines)) && FirstDeclaring(lines, i)
  {
    FirstValueCases(lines, LineLength);
  }

  /** `ParseContentLength`: reads the text line by line and returns at the first line that declares a length. */
  method ParseContentLength(headerText: string) returns (len: int)
    ensures len == ContentLengthIn(Lines(headerText))
  {
    var rest := headerText;
    while rest != []
      invariant ContentLengthIn(Lines(headerText)) == ContentLengthIn(Lines(rest))
      decreases |rest|
    {
      var line := rest[..LineEnd(rest)];
      assert Lines(rest) == [line] + Lines(AfterLine(rest));
      assert (Lines(rest))[1..] == Lines(AfterLine(rest));
      var idx := IndexOfIgnoreCase(line, ContentLengthKey, 0);
      if idx >= 0 {
        var value := Trim(line[idx + |ContentLengthKey|..]);
        var parsed := TryParseInt32(value);
        if parsed.Some? {
          return parsed.value;
        }
      }
      rest := AfterLine(rest);
    }
    return -1;
  }

  /** Trimming a space off a run of digits leaves the digits. */
  lemma TrimDigits(digits: string)
    requires |digits| >= 1 && forall i :: 0 <= i < |digits| ==> IsDigit(digits[i])
    ensures Trim(" " + digits) == digits
  {
    assert IsDigit(digits[0]) && IsDigit(digits[|digits| - 1]);
    TrimStartSkips(' ', digits);
    TrimStartStops(digits);
    TrimEndStops(digits);
  }

  lemma TrimStartSkips(c: char, s: string)
    requires IsWhiteSpace(c)
    ensures TrimStart([c] + s) == TrimStart(s)
  {
    assert ([c] + s)[1..] == s;
  }

  lemma TrimStartStops(s: string)
    requires s != [] && !IsWhiteSpace(s[0])
    ensures TrimStart(s) == s
  {
  }

  lemma TrimEndStops(s: string)
    requires s != [] && !IsWhiteSpace(s[|s| - 1])
    ensures TrimEnd(s) == s
  {
  }

  /** The line `Content-Length: <n>` declares `n`. */
  lemma DeclaringLine(length: nat)
    requires length <= Int32Max
    ensures LineLength("Content-Length: " + NatToString(length)) == Some(length)
  {
    var digits := NatToString(length);
    KeyAtStart(digits);
    TrimDigits(digits);
    NatToStringParses(length);
  }

  /** The key at the start of a line is found there, and the text after it is what `LineLength` parses. */
  lemma KeyAtStart(digits: string)
    ensures LineLength("Content-Length: " + digits) == TryParseInt32(Trim(" " + digits))
  {
    var line := "Content-Length: " + digits;
    assert line[0..15] == ContentLengthKey;
    assert line[15..] == " " + digits;
    assert MatchesAt(line, ContentLengthKey, 0);
    assert IndexOfIgnoreCase(line, ContentLengthKey, 0) == 0;
  }

  /** Text whose first line is `Content-Length: <n>`, ended by LF, declares `n` whatever follows. */
  lemma FirstLineDeclares(length: nat, rest: string)
    requires length <= Int32Max
    ensures ContentLengthIn(Lines("Content-Length: " + NatToString(length) + "\n" + rest)) == length
  {
    var digits := NatToString(length);
    var line := "Content-Length: " + digits;
    var s := line + "\n" + rest;
    forall j | 16 <= j < |line|
      ensures line[j] != '\r' && line[j] != '\n'
    {
      assert line[j] == digits[j - 16];
    }
    assert s[|line|] == '\n';
    LineEndAt(s, |line|);
    assert s[..|line|] == line;
    assert s[|line| + 1..] == rest;
    assert Lines(s) == [line] + Lines(rest);
    DeclaringLine(length);
  }

  lemma LineEndAt(s: string, k: nat)
    requires k < |s| && (s[k] == '\r' || s[k] == '\n')
    requires forall j :: 0 <= j < k ==> s[j] != '\r' && s[j] != '\n'
    ensures LineEnd(s) == k
    decreases k
  {
    if k > 0 {
      LineEndAt(s[1..], k - 1);
    }
  }

  /** The header the client itself writes declares the body's length. */
  lemma HeaderDeclaresLength(length: nat)
    requires length <= Int32Max
    ensures ContentLengthIn(Lines(Header(length))) == length
  {
    assert Header(length) == "Content-Length: " + NatToString(length) + "\n" + "\n";
    FirstLineDeclares(length, "\n");
  }

  // ---------------------------------------------------------------------
  // ReadExactAsync
  // ---------------------------------------------------------------------

  /** The exception a stream that ends too soon raises. */
  const ClosedEarly := EndOfStreamException("Stream closed before reading full body")

  /**
   * `ReadExactAsync`: reads until `length` bytes have arrived; if the stream
   * ends first, `EndOfStreamException` after consuming what there was.
   */
  method ReadExact(stream: InputStream, length: nat) returns (r: Result<array<byte>>)
    modifies stream
    ensures length <= |old(stream.remaining)| <==> r.Ok?
    ensures r.Ok? ==> fresh(r.value) && r.value[..] == old(stream.remaining)[..length]
                      && stream.remaining == old(stream.remaining)[length..]
    ensures r.Fail? ==> r.error == ClosedEarly && stream.remaining == []
  {
    ghost var data := stream.remaining;
    var buffer := new byte[length];
    var offset := 0;
    while offset < length
      invariant 0 <= offset <= length && offset <= |data|
      invariant forall i :: 0 <= i < offset ==> buffer[i] == data[i]
      invariant stream.remaining == data[offset..]
      decreases length - offset
    {
      var read := stream.Read(buffer, offset, length - offset);
      if read == 0 {
        return Fail(ClosedEarly);
      }
      offset := offset + read;
    }
    assert buffer[..] == data[..length];
    return Ok(buffer);
  }

  // ---------------------------------------------------------------------
  // Main
  // ---------------------------------------------------------------------

  /** How a run ends: an exit code, or an exception escaping `Main`. */
  datatype ClientOutcome = Exit(code: int) | Crashed(exception: Exception)

  /** The length the response header declares. */
  function DeclaredLength(response: seq<byte>): int
  {
    ContentLengthIn(Lines(AsciiDecode(response[..HeaderLength(response)])))
  }

  /** How a run ends once the request is sent, given everything the server writes. */
  function ResponseOutcome(response: seq<byte>): ClientOutcome
  {
    var len := DeclaredLength(response);
    if len <= 0 then Exit(5)
    else if len <= |response| - HeaderLength(response) then Exit(0)
    else Crashed(ClosedEarly)
  }

  /** The body bytes a successful run prints. */
  function ResponseBody(response: seq<byte>): seq<byte>
    requires ResponseOutcome(response) == Exit(0)
  {
    var h := HeaderLength(response);
    response[h..h + DeclaredLength(response)]
  }

  /**
   * `Main` once the server is running: argument and file checks (2, 3, 4),
   * the request written, the response header read and parsed (5 for a
   * missing or non-positive length), then the body read and printed (0).
   * `requestJson` is the request file's text, `fileExists` stands for
   * `File.Exists`, and `server` for the server's standard output.
   */
  method Run(args: seq<string>, fileExists: string -> bool, requestJson: string, server: InputStream)
    returns (outcome: ClientOutcome, sent: seq<byte>, printed: seq<byte>)
    modifies server
    ensures |args| < 2 ==> outcome == Exit(2) && sent == [] && printed == []
    ensures |args| >= 2 && !fileExists(args[0]) ==> outcome == Exit(3) && sent == [] && printed == []
    ensures |args| >= 2 && fileExists(args[0]) && !fileExists(args[1]) ==> outcome == Exit(4) && sent == [] && printed == []
    ensures |args| >= 2 && fileExists(args[0]) && fileExists(args[1]) ==>
              && sent == RequestBytes(requestJson, |args| > 2 && args[2] == "--no-header")
              && outcome == ResponseOutcome(old(server.remaining))
              && (outcome == Exit(0) ==> printed == ResponseBody(old(server.remaining)))
              && (outcome != Exit(0) ==> printed == [])
  {
    sent, printed := [], [];
    if |args| < 2 {
      return Exit(2), sent, printed;
    }
    if !fileExists(args[0]) {
      return Exit(3), sent, printed;
    }
    if !fileExists(args[1]) {
      return Exit(4), sent, printed;
    }
    var noHeader := |args| > 2 && args[2] == "--no-header";
    outcome, sent, printed := Exchange(requestJson, noHeader, server);
  }

  /** The request sent, and the response read, once the arguments and files are in order. */
  method Exchange(requestJson: string, noHeader: bool, server: InputStream)
    returns (outcome: ClientOutcome, sent: seq<byte>, printed: seq<byte>)
    modifies server
    ensures sent == RequestBytes(requestJson, noHeader)
    ensures outcome == ResponseOutcome(old(server.remaining))
    ensures outcome == Exit(0) ==> printed == ResponseBody(old(server.remaining))
    ensures outcome != Exit(0) ==> printed == []
  {
    printed := [];
    sent := BuildRequest(requestJson, noHeader);
    var responseHeaders := ReadHeaders(server);
    var contentLength := ParseContentLength(responseHeaders);
    if contentLength <= 0 {
      return Exit(5), sent, printed;
    }
    var body := ReadExact(server, contentLength);
    if body.Fail? {
      return Crashed(body.error), sent, printed;
    }
    printed := body.value[..];
    return Exit(0), sent, printed;
  }

  /** Decoding what was ASCII-encoded gives back an ASCII text. */
  lemma AsciiRoundTrip(s: string)
    requires forall i :: 0 <= i < |s| ==> s[i] as int < 0x80
    ensures AsciiDecode(AsciiEncode(s)) == s
  {
  }

  /**
   * A response whose header ends with CR LF CR LF (and nowhere before) and
   * declares the length of the body that follows prints exactly that body
   * and exits with 0, whatever else the server writes afterwards.
   */
  lemma WellFramedResponseSucceeds(header: seq<byte>, body: seq<byte>, rest: seq<byte>)
    requires EndsWith(header, Terminator)
    requires forall k :: 0 <= k < |header| ==> !EndsWith(header[..k], Terminator)
    requires ContentLengthIn(Lines(AsciiDecode(header))) == |body| > 0
    ensures ResponseOutcome(header + body + rest) == Exit(0)
    ensures ResponseBody(header + body + rest) == body
  {
    var data := header + body + rest;
    assert data == header + (body + rest);
    HeaderLengthOfFramed(header, body + rest);
    assert data[..|header|] == header;
    assert data[|header|..|header| + |body|] == body;
  }

  /**
   * A server that framed its response the way this client frames requests
   * (LF LF after the header, a body with no CR) would never be read: no
   * CR LF CR LF arrives, the whole response is taken as header, it declares
   * a positive length, and no byte is left for the body.
   */
  lemma LfFramedResponseIsNeverRead(requestJson: string)
    requires var body := Utf8Encode(NormalizeBody(requestJson)); 0 < |body| <= Int32Max
    ensures ResponseOutcome(RequestBytes(requestJson, false)) == Crashed(ClosedEarly)
  {
    var body := Utf8Encode(NormalizeBody(requestJson));
    var data := RequestBytes(requestJson, false);
    RequestHasNoCr(requestJson, false);
    HeaderLengthWithoutCr(data);
    assert data[..HeaderLength(data)] == data;
    var h := Header(|body|);
    assert AsciiDecode(data) == h + AsciiDecode(body) by {
      HeaderIsAscii(|body|);
      AsciiRoundTrip(h);
      assert data == AsciiEncode(h) + body;
    }
    assert h + AsciiDecode(body) == "Content-Length: " + NatToString(|body|) + "\n" + ("\n" + AsciiDecode(body));
    FirstLineDeclares(|body|, "\n" + AsciiDecode(body));
  }

  lemma HeaderIsAscii(length: nat)
    ensures forall i :: 0 <= i < |Header(length)| ==> Header(length)[i] as int < 0x80
  {
    var h := Header(length);
    var digits := NatToString(length);
    forall i | 16 <= i < 16 + |digits|
      ensures h[i] as int < 0x80
    {
      assert h[i] == digits[i - 16];
    }
  }
}
