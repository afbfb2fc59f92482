/**
 * Text: the string toolkit the server and its clients are written against.
 * Python's str methods as the engine uses them (split, join, strip, lower,
 * find, startswith, the whitespace split of a request line), decimal
 * printing and parsing of integers, and the UTF-8 encoding of text into
 * the bytes that go on the wire.
 */
module Text {

  datatype Option<T> = None | Some(value: T)

  type byte = b: int | 0 <= b < 256

  const CRLF: string := "\r\n"

  /** Python's str.isspace on one character (ASCII and Unicode separators). */
  predicate IsSpace(c: char) {
    var n := c as int;
    n == 0x20 || (0x09 <= n <= 0x0d) || (0x1c <= n <= 0x1f) || n == 0x85 || n == 0xa0
    || n == 0x1680 || (0x2000 <= n <= 0x200a) || n == 0x2028 || n == 0x2029
    || n == 0x202f || n == 0x205f || n == 0x3000
  }

  predicate NoSpace(s: string) {
    forall i :: 0 <= i < |s| ==> !IsSpace(s[i])
  }

  predicate StartsWith(s: string, prefix: string) {
    |prefix| <= |s| && s[..|prefix|] == prefix
  }

  predicate EndsWith(s: string, suffix: string) {
    |suffix| <= |s| && s[|s| - |suffix|..] == suffix
  }

  // ---------------------------------------------------------------------
  // Stripping

  /** s.lstrip(): drops the leading whitespace (see LStripSpec). */
  function LStrip(s: string): (r: string)
    ensures |r| <= |s|
  {
    if s != [] && IsSpace(s[0]) then LStrip(s[1..]) else s
  }

  /** lstrip drops the leading whitespace and nothing else. */
  lemma {:induction false} LStripSpec(s: string)
    ensures LStrip(s) == s[|s| - |LStrip(s)|..]
    ensures LStrip(s) == [] || !IsSpace(LStrip(s)[0])
    ensures forall i :: 0 <= i < |s| - |LStrip(s)| ==> IsSpace(s[i])
    decreases |s|
  {
    if s != [] && IsSpace(s[0]) {
      LStripSpec(s[1..]);
      forall i | 1 <= i < |s| - |LStrip(s)| ensures IsSpace(s[i]) {
        assert s[i] == s[1..][i - 1];
      }
    }
  }

  /** s.rstrip(): drops the trailing whitespace (see RStripSpec). */
  function RStrip(s: string): (r: string)
    ensures |r| <= |s|
  {
    if s != [] && IsSpace(s[|s| - 1]) then RStrip(s[..|s| - 1]) else s
  }

  /** rstrip drops the trailing whitespace and nothing else. */
  lemma {:induction false} RStripSpec(s: string)
    ensures RStrip(s) == s[..|RStrip(s)|]
    ensures RStrip(s) == [] || !IsSpace(RStrip(s)[|RStrip(s)| - 1])
    ensures forall i :: |RStrip(s)| <= i < |s| ==> IsSpace(s[i])
    decreases |s|
  {
    if s != [] && IsSpace(s[|s| - 1]) {
      RStripSpec(s[..|s| - 1]);
      forall i | |RStrip(s)| <= i < |s| - 1 ensures IsSpace(s[i]) {
        assert s[i] == s[..|s| - 1][i];
      }
    }
  }

  /** s.strip() */
  function Strip(s: string): string {
    RStrip(LStrip(s))
  }

  /** s.lstrip(c) for a single character c, as in path.lstrip('/'). */
  function LStripChar(s: string, c: char): (r: string)
    ensures |r| <= |s| && r == s[|s| - |r|..]
    ensures r == [] || r[0] != c
    ensures forall i :: 0 <= i < |s| - |r| ==> s[i] == c
  {
    if s != [] && s[0] == c then LStripChar(s[1..], c) else s
  }

  lemma StripOfTrimmed(s: string)
    requires s == [] || (!IsSpace(s[0]) && !IsSpace(s[|s| - 1]))
    ensures Strip(s) == s
  {
  }

  // ---------------------------------------------------------------------
  // Case

  function LowerChar(c: char): char {
    if 'A' <= c <= 'Z' then (c as int + 32) as char else c
  }

  /** s.lower() on the ASCII letters. */
  function ToLower(s: string): (r: string)
    ensures |r| == |s|
  {
    seq(|s|, i requires 0 <= i < |s| => LowerChar(s[i]))
  }

  /** Lowering is idempotent: a lowered name lowers to itself. */
  lemma LowerIdempotent(s: string)
    ensures ToLower(ToLower(s)) == ToLower(s)
  {
    var l := ToLower(s);
    forall i | 0 <= i < |s| ensures ToLower(l)[i] == l[i] {
      assert l[i] == LowerChar(s[i]);
    }
  }

  // ---------------------------------------------------------------------
  // Searching, splitting and joining

  /** sub occurs in s at index j */
  predicate At(s: string, j: int, sub: string) {
    0 <= j && j + |sub| <= |s| && s[j..j + |sub|] == sub
  }

  /** s.find(sub) as an option: the first index where sub occurs (see FindSpec). */
  function Find(s: string, sub: string): (r: Option<nat>)
    ensures r.Some? ==> r.value + |sub| <= |s|
    decreases |s|
  {
    if |s| < |sub| then None
    else if s[..|sub|] == sub then Some(0)
    else
      match Find(s[1..], sub)
      case None => None
      case Some(i) => Some(i + 1)
  }

  /** Find answers an occurrence of sub. */
  lemma {:induction false} FindAt(s: string, sub: string)
    ensures Find(s, sub).Some? ==> At(s, Find(s, sub).value, sub)
    decreases |s|
  {
    if |s| >= |sub| && s[..|sub|] != sub {
      FindAt(s[1..], sub);
      match Find(s[1..], sub)
      case None =>
      case Some(i) =>
        assert s[1..][i..i + |sub|] == s[i + 1..i + 1 + |sub|];
    }
  }

  /** Find answers the first occurrence of sub, and answers nothing only when sub does not occur. */
  lemma {:induction false} FindSpec(s: string, sub: string)
    ensures Find(s, sub).Some? ==> At(s, Find(s, sub).value, sub)
    ensures Find(s, sub).Some? ==> forall j :: 0 <= j < Find(s, sub).value ==> !At(s, j, sub)
    ensures Find(s, sub).None? ==> forall j :: !At(s, j, sub)
    decreases |s|
  {
    if |s| >= |sub| && s[..|sub|] != sub {
      FindSpec(s[1..], sub);
      forall j | 0 < j && At(s, j, sub) ensures At(s[1..], j - 1, sub) {
        assert s[1..][j - 1..j - 1 + |sub|] == s[j..j + |sub|];
      }
    }
    FindAt(s, sub);
  }

  /** `sub in s` */
  predicate Contains(s: string, sub: string) {
    Find(s, sub).Some?
  }

  /** The first occurrence is the only index that satisfies both halves of Find's contract. */
  lemma FindIs(s: string, sub: string, k: nat)
    requires At(s, k, sub)
    requires forall j :: 0 <= j < k ==> !At(s, j, sub)
    ensures Find(s, sub) == Some(k)
  {
    FindSpec(s, sub);
  }

  /** s.split(sep): the pieces between the non-overlapping occurrences of sep, left to right. */
  function Split(s: string, sep: string): (r: seq<string>)
    requires sep != []
    ensures |r| >= 1
    decreases |s|
  {
    match Find(s, sep)
    case None => [s]
    case Some(i) => [s[..i]] + Split(s[i + |sep|..], sep)
  }

  /** sep.join(parts) */
  function Join(parts: seq<string>, sep: string): string {
    if |parts| == 0 then ""
    else if |parts| == 1 then parts[0]
    else parts[0] + sep + Join(parts[1..], sep)
  }

  /** Joining one more part puts the separator before it. */
  lemma {:induction false} JoinSnoc(parts: seq<string>, x: string, sep: string)
    requires parts != []
    ensures Join(parts + [x], sep) == Join(parts, sep) + sep + x
    decreases |parts|
  {
    if |parts| > 1 {
      assert (parts + [x])[1..] == parts[1..] + [x];
      JoinSnoc(parts[1..], x, sep);
    }
  }

  /** s.split(sep, 1) when sep occurs: the text before and after its first occurrence. */
  function SplitOnce(s: string, sep: string): (r: Option<(string, string)>)
    requires sep != []
    ensures r.None? <==> !Contains(s, sep)
  {
    match Find(s, sep)
    case None => None
    case Some(i) => Some((s[..i], s[i + |sep|..]))
  }

  /** The two halves put back around sep give the text, and the first half holds no sep. */
  lemma SplitOnceSpec(s: string, sep: string)
    requires sep != [] && Contains(s, sep)
    ensures SplitOnce(s, sep).value.0 + sep + SplitOnce(s, sep).value.1 == s
    ensures !Contains(SplitOnce(s, sep).value.0, sep)
  {
    var i := Find(s, sep).value;
    FindReassemble(s, sep, i);
    NoEarlierOccurrence(s, sep, i);
  }

  /** The text before the first occurrence of sep does not contain sep. */
  lemma NoEarlierOccurrence(s: string, sep: string, i: nat)
    requires sep != [] && Find(s, sep) == Some(i)
    ensures !Contains(s[..i], sep)
  {
    FindSpec(s, sep);
    FindSpec(s[..i], sep);
    forall j | 0 <= j && j + |sep| <= i ensures !At(s[..i], j, sep) {
      assert s[..i][j..j + |sep|] == s[j..j + |sep|];
      assert j < i && !At(s, j, sep);
    }
  }

  /** sub cannot occur where its first character does not. */
  lemma NotAtByHead(s: string, j: int, sub: string)
    requires sub != [] && 0 <= j < |s| && s[j] != sub[0]
    ensures !At(s, j, sub)
  {
    if j + |sub| <= |s| {
      assert s[j..j + |sub|][0] == s[j];
    }
  }

  /** sub cannot occur at j when one of the characters it would cover differs. */
  lemma NotAtByOffset(s: string, j: int, sub: string, d: nat)
    requires 0 <= j && d < |sub| && j + d < |s| && s[j + d] != sub[d]
    ensures !At(s, j, sub)
  {
    if j + |sub| <= |s| {
      assert s[j..j + |sub|][d] == s[j + d];
    }
  }

  /** An occurrence of sub is an occurrence of each of its prefixes. */
  lemma AtPrefix(s: string, j: int, sub: string, n: nat)
    requires n <= |sub|
    ensures At(s, j, sub) ==> At(s, j, sub[..n])
  {
    if At(s, j, sub) {
      assert s[j..j + n] == s[j..j + |sub|][..n];
    }
  }

  /** With no occurrence before k, the first occurrence is the first one in s[k..], shifted by k. */
  lemma {:induction false} FindShift(s: string, sub: string, k: nat)
    requires k <= |s|
    requires forall j :: 0 <= j < k ==> !At(s, j, sub)
    ensures Find(s, sub) == match Find(s[k..], sub) case None => None case Some(p) => Some(p + k)
    decreases k
  {
    if k > 0 && |s| >= |sub| {
      assert !At(s, 0, sub) && s[0..|sub|] == s[..|sub|];
      forall j | 0 <= j < k - 1 ensures !At(s[1..], j, sub) {
        assert !At(s, j + 1, sub);
        if j + |sub| <= |s| - 1 {
          assert s[1..][j..j + |sub|] == s[j + 1..j + 1 + |sub|];
        }
      }
      assert Find(s, sub) == match Find(s[1..], sub) case None => None case Some(i) => Some(i + 1);
      FindShift(s[1..], sub, k - 1);
      assert s[1..][k - 1..] == s[k..];
    }
  }

  /** A separator whose first character is absent from p splits p + sep + rest right after p. */
  lemma SplitOnceAt(p: string, sep: string, rest: string)
    requires sep != [] && sep[0] !in p
    ensures SplitOnce(p + sep + rest, sep) == Some((p, rest))
  {
    var s := p + sep + rest;
    assert s[|p|..|p| + |sep|] == sep;
    forall j | 0 <= j < |p| ensures !At(s, j, sep) {
      assert s[j] == p[j];
      NotAtByHead(s, j, sep);
    }
    FindIs(s, sep, |p|);
    assert s[..|p|] == p;
    assert s[|p| + |sep|..] == rest;
  }

  /** Splitting at the first occurrence of sep: the text before it, then the pieces of the rest. */
  lemma SplitAtFirst(s: string, sep: string, i: nat)
    requires sep != [] && Find(s, sep) == Some(i)
    ensures Split(s, sep) == [s[..i]] + Split(s[i + |sep|..], sep)
    ensures s == s[..i] + sep + s[i + |sep|..]
    ensures !Contains(s[..i], sep)
  {
    FindReassemble(s, sep, i);
    NoEarlierOccurrence(s, sep, i);
  }

  /** The text is the part before the first sep, sep, and the part after it. */
  lemma FindReassemble(s: string, sep: string, i: nat)
    requires sep != [] && Find(s, sep) == Some(i)
    ensures s == s[..i] + sep + s[i + |sep|..]
  {
    FindAt(s, sep);
    assert s[i..i + |sep|] == sep;
  }

  /** Joining the pieces of a split gives back the text: no character is lost or added. */
  lemma {:induction false} JoinSplit(s: string, sep: string)
    requires sep != []
    ensures Join(Split(s, sep), sep) == s
    decreases |s|
  {
    match Find(s, sep)
    case None =>
    case Some(i) =>
      var rest := s[i + |sep|..];
      JoinSplit(rest, sep);
      SplitAtFirst(s, sep, i);
  }

  /** A separator whose first character is absent from p is found right after p. */
  lemma SplitCons(p: string, sep: string, rest: string)
    requires sep != [] && sep[0] !in p
    ensures Split(p + sep + rest, sep) == [p] + Split(rest, sep)
  {
    var s := p + sep + rest;
    assert s[|p|..|p| + |sep|] == sep;
    forall j | 0 <= j < |p| ensures !At(s, j, sep) {
      assert s[j] == p[j];
      NotAtByHead(s, j, sep);
    }
    FindIs(s, sep, |p|);
    assert s[..|p|] == p;
    assert s[|p| + |sep|..] == rest;
  }

  /** A piece without the separator's first character splits into itself. */
  lemma SplitSingle(p: string, sep: string)
    requires sep != [] && sep[0] !in p
    ensures Split(p, sep) == [p]
  {
    forall j | 0 <= j < |p| ensures !At(p, j, sep) {
      NotAtByHead(p, j, sep);
    }
    FindSpec(p, sep);
  }

  /** Pieces without the separator's first character, joined by it and followed by it, split back into those pieces. */
  lemma {:induction false} SplitJoinedBy(parts: seq<string>, sep: string, rest: string)
    requires sep != [] && parts != [] && forall i :: 0 <= i < |parts| ==> sep[0] !in parts[i]
    ensures Split(Join(parts, sep) + sep + rest, sep) == parts + Split(rest, sep)
    decreases |parts|
  {
    if |parts| == 1 {
      assert Join(parts, sep) == parts[0] && parts == [parts[0]];
      SplitCons(parts[0], sep, rest);
    } else {
      var j := Join(parts[1..], sep);
      var tail := j + sep + rest;
      calc {
        Split(Join(parts, sep) + sep + rest, sep);
      == { assert Join(parts, sep) + sep + rest == parts[0] + sep + tail; }
        Split(parts[0] + sep + tail, sep);
      == { SplitCons(parts[0], sep, tail); }
        [parts[0]] + Split(tail, sep);
      == { SplitJoinedBy(parts[1..], sep, rest); }
        [parts[0]] + (parts[1..] + Split(rest, sep));
      == { assert parts == [parts[0]] + parts[1..]; }
        parts + Split(rest, sep);
      }
    }
  }

  /** Lines without a carriage return, joined by CRLF and followed by one, split back into those lines. */
  lemma SplitJoined(lines: seq<string>, rest: string)
    requires lines != [] && forall i :: 0 <= i < |lines| ==> '\r' !in lines[i]
    ensures Split(Join(lines, CRLF) + CRLF + rest, CRLF) == lines + Split(rest, CRLF)
  {
    SplitJoinedBy(lines, CRLF, rest);
  }

  // ---------------------------------------------------------------------
  // Whitespace split, as in str.split() with no argument

  /** Length of the leading run of non-whitespace characters. */
  function WordLen(t: string): (n: nat)
    ensures n <= |t|
    ensures forall i :: 0 <= i < n ==> !IsSpace(t[i])
    ensures n == |t| || IsSpace(t[n])
  {
    if t == [] || IsSpace(t[0]) then 0 else 1 + WordLen(t[1..])
  }

  /** s.split(): the maximal runs of non-whitespace characters, in order. */
  function Words(s: string): (r: seq<string>)
    ensures forall k :: 0 <= k < |r| ==> r[k] != [] && NoSpace(r[k])
    decreases |s|
  {
    var t := LStrip(s);
    if t == [] then []
    else
      LStripSpec(s);
      var n := WordLen(t);
      [t[..n]] + Words(t[n..])
  }

  /** Leading whitespace does not change the words. */
  lemma WordsSkipSpace(c: char, s: string)
    requires IsSpace(c)
    ensures Words([c] + s) == Words(s)
  {
    assert ([c] + s)[1..] == s;
  }

  /** A word followed by the end of the text or by whitespace is the first word. */
  lemma WordsCons(w: string, rest: string)
    requires w != [] && NoSpace(w)
    requires rest == [] || IsSpace(rest[0])
    ensures Words(w + rest) == [w] + Words(rest)
  {
    var s := w + rest;
    assert LStrip(s) == s;
    WordLenOf(w, rest);
    assert s[..|w|] == w;
    assert s[|w|..] == rest;
  }

  lemma {:induction false} WordLenOf(w: string, rest: string)
    requires NoSpace(w)
    requires rest == [] || IsSpace(rest[0])
    ensures WordLen(w + rest) == |w|
    decreases |w|
  {
    if w != [] {
      assert (w + rest)[1..] == w[1..] + rest;
      WordLenOf(w[1..], rest);
    } else {
      assert w + rest == rest;
    }
  }

  /** A word, one space, and the rest: the word comes first, then the words of the rest. */
  lemma WordsSpaceThen(w: string, rest: string)
    requires w != [] && NoSpace(w)
    ensures Words(w + " " + rest) == [w] + Words(rest)
  {
    var tail := " " + rest;
    assert w + " " + rest == w + tail;
    WordsCons(w, tail);
    assert tail == [' '] + rest;
    WordsSkipSpace(' ', rest);
  }

  /** A single word is its own whitespace split. */
  lemma WordsSingle(w: string)
    requires w != [] && NoSpace(w)
    ensures Words(w) == [w]
  {
    assert w == w + [];
    WordsCons(w, []);
  }

  /** Words separated by single spaces come back as they were written. */
  lemma WordsOfThree(a: string, b: string, c: string)
    requires a != [] && NoSpace(a) && b != [] && NoSpace(b) && c != [] && NoSpace(c)
    ensures Words(a + " " + b + " " + c) == [a, b, c]
  {
    var bc := b + " " + c;
    assert a + " " + b + " " + c == a + " " + bc;
    WordsSpaceThen(a, bc);
    WordsSpaceThen(b, c);
    WordsSingle(c);
    ThreeItems(a, b, c);
  }

  /** Regrouping a two-element separator. */
  lemma Regroup<T>(a: seq<T>, x: T, y: T, b: seq<T>)
    ensures a + [x, y] + b == a + [x] + ([y] + b)
  {
  }

  /** A leading space is dropped by strip. */
  lemma StripLeadingSpace(w: string)
    ensures Strip(" " + w) == Strip(w)
  {
    assert (" " + w)[1..] == w;
  }

  lemma ThreeItems<T>(x: T, y: T, z: T)
    ensures [x] + ([y] + [z]) == [x, y, z]
  {
  }

  // ---------------------------------------------------------------------
  // Decimal numbers

  predicate IsDigit(c: char) {
    '0' <= c <= '9'
  }

  function DigitChar(d: nat): (c: char)
    requires d < 10
    ensures IsDigit(c) && c as int - '0' as int == d
  {
    ('0' as int + d) as char
  }

  /** str(n) for a non-negative integer. */
  function NatToString(n: nat): (r: string)
    ensures r != [] && forall i :: 0 <= i < |r| ==> IsDigit(r[i])
    decreases n
  {
    if n < 10 then [DigitChar(n)] else NatToString(n / 10) + [DigitChar(n % 10)]
  }

  /** str(i) for any integer: a minus sign before the digits of a negative one. */
  function IntToString(i: int): string {
    if i < 0 then "-" + NatToString(-i) else NatToString(i)
  }

  /** The value of a string of decimal digits. */
  function DigitsValue(s: string): nat
    requires forall i :: 0 <= i < |s| ==> IsDigit(s[i])
  {
    if s == [] then 0
    else
      assert IsDigit(s[|s| - 1]);
      10 * DigitsValue(s[..|s| - 1]) + (s[|s| - 1] as int - '0' as int)
  }

  /** Reading back the printed digits of n gives n. */
  lemma {:induction false} DigitsValueOfNat(n: nat)
    ensures DigitsValue(NatToString(n)) == n
    decreases n
  {
    var r := NatToString(n);
    if n >= 10 {
      DigitsValueOfNat(n / 10);
      assert r[..|r| - 1] == NatToString(n / 10);
    }
  }

  /** Printed decimals never begin with a redundant zero. */
  lemma {:induction false} NatToStringFirst(n: nat)
    ensures NatToString(n)[0] != '0' || n == 0
    decreases n
  {
    if n >= 10 {
      NatToStringFirst(n / 10);
    }
  }

  // ---------------------------------------------------------------------
  // UTF-8

  /** The UTF-8 encoding of one Unicode scalar value. */
  function EncodeChar(c: char): (r: seq<byte>)
    ensures 1 <= |r| <= 4
    ensures |r| == 1 <==> c as int < 0x80
    ensures |r| == 1 ==> r[0] == c as int
  {
    var n := c as int;
    if n < 0x80 then [n]
    else if n < 0x800 then [0xC0 + n / 64, 0x80 + n % 64]
    else if n < 0x10000 then [0xE0 + n / 4096, 0x80 + (n / 64) % 64, 0x80 + n % 64]
    else [0xF0 + n / 262144, 0x80 + (n / 4096) % 64, 0x80 + (n / 64) % 64, 0x80 + n % 64]
  }

  /** s.encode('utf-8') */
  function Utf8Encode(s: string): seq<byte> {
    if s == [] then [] else EncodeChar(s[0]) + Utf8Encode(s[1..])
  }

  predicate IsAscii(s: string) {
    forall i :: 0 <= i < |s| ==> s[i] as int < 0x80
  }

  /** A bytes literal b'...': one byte per character, its code point (Python admits only ASCII there). */
  function Bytes(s: string): (r: seq<byte>)
    ensures |r| == |s|
  {
    seq(|s|, i requires 0 <= i < |s| => (s[i] as int) % 256)
  }

  lemma BytesAppend(a: string, b: string)
    ensures Bytes(a + b) == Bytes(a) + Bytes(b)
  {
  }

  /** Encoding distributes over concatenation. */
  lemma {:induction false} Utf8Append(a: string, b: string)
    ensures Utf8Encode(a + b) == Utf8Encode(a) + Utf8Encode(b)
    decreases |a|
  {
    if a != [] {
      assert (a + b)[0] == a[0];
      assert (a + b)[1..] == a[1..] + b;
      Utf8Append(a[1..], b);
    } else {
      assert a + b == b;
    }
  }

  /** ASCII text encodes to one byte per character, each its code point. */
  lemma {:induction false} Utf8Ascii(s: string)
    requires IsAscii(s)
    ensures |Utf8Encode(s)| == |s|
    ensures forall i :: 0 <= i < |s| ==> Utf8Encode(s)[i] == s[i] as int
    decreases |s|
  {
    if s != [] {
      Utf8Ascii(s[1..]);
    }
  }

  /** For ASCII text, encoding it and writing it as a bytes literal agree. */
  lemma AsciiBytes(s: string)
    requires IsAscii(s)
    ensures Utf8Encode(s) == Bytes(s)
  {
    Utf8Ascii(s);
  }

  /** Non-ASCII text takes more bytes than characters. */
  lemma {:induction false} Utf8AtLeast(s: string)
    ensures |Utf8Encode(s)| >= |s|
    ensures |Utf8Encode(s)| == |s| ==> IsAscii(s)
    decreases |s|
  {
    if s != [] {
      Utf8AtLeast(s[1..]);
      if |Utf8Encode(s)| == |s| {
        assert |EncodeChar(s[0])| == 1;
        forall i | 0 <= i < |s| ensures s[i] as int < 0x80 {
          if i > 0 { assert s[i] == s[1..][i - 1]; }
        }
      }
    }
  }
}
