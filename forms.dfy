/**
 * Forms: the `key=value` item lists the server and its applications read.
 * Four places parse them, in three variants:
 *  - a Cookie header: items separated by `;`, each item and both halves
 *    stripped of surrounding whitespace;
 *  - a form-urlencoded request body in the request parser: items separated
 *    by `&`, the key kept as it is, the value percent-decoded with `+`
 *    read as a space;
 *  - the login form of the backend application: items separated by `&`,
 *    key and value percent-decoded, `+` kept.
 * Every variant keeps only the items that contain `=`, splits them on the
 * first `=`, and lets a later item overwrite an earlier one with the same key.
 */
module Forms {
  import opened Text
  import opened Assoc

  datatype Style = Cookie | FormPlus | Form

  function Separator(style: Style): string {
    if style == Cookie then ";" else "&"
  }

  // ---------------------------------------------------------------------
  // Percent-decoding

  predicate IsHex(c: char) {
    ('0' <= c <= '9') || ('a' <= c <= 'f') || ('A' <= c <= 'F')
  }

  function HexValue(c: char): (v: nat)
    requires IsHex(c)
    ensures v < 16
  {
    if '0' <= c <= '9' then c as int - '0' as int
    else if 'a' <= c <= 'f' then c as int - 'a' as int + 10
    else c as int - 'A' as int + 10
  }

  /** `%XX` at the front of s, naming an ASCII character */
  predicate AsciiEscapeAt(s: string) {
    |s| >= 3 && s[0] == '%' && IsHex(s[1]) && IsHex(s[2]) && 16 * HexValue(s[1]) + HexValue(s[2]) < 0x80
  }

  /**
   * urllib.parse.unquote (plus == false) and unquote_plus (plus == true):
   * each `%XX` escape of an ASCII character becomes that character, and
   * with plus every `+` becomes a space.  Anything else is copied.
   */
  function Unquote(s: string, plus: bool): (r: string)
    ensures |r| <= |s|
    decreases |s|
  {
    if s == [] then []
    else if plus && s[0] == '+' then " " + Unquote(s[1..], plus)
    else if AsciiEscapeAt(s) then [(16 * HexValue(s[1]) + HexValue(s[2])) as char] + Unquote(s[3..], plus)
    else [s[0]] + Unquote(s[1..], plus)
  }

  /** Text with nothing to decode is returned unchanged. */
  lemma {:induction false} UnquotePlain(s: string, plus: bool)
    requires '%' !in s
    requires plus ==> '+' !in s
    ensures Unquote(s, plus) == s
    decreases |s|
  {
    if s != [] {
      UnquotePlain(s[1..], plus);
      assert s == [s[0]] + s[1..];
    }
  }

  /** unquote_plus reads `+` as a space, unquote keeps it. */
  lemma UnquotePlusSign(rest: string)
    ensures Unquote("+" + rest, true) == " " + Unquote(rest, true)
    ensures Unquote("+" + rest, false) == "+" + Unquote(rest, false)
  {
    assert ("+" + rest)[1..] == rest;
  }

  /** An escape of an ASCII character decodes to it, in either variant. */
  lemma UnquoteEscape(hi: char, lo: char, rest: string, plus: bool)
    requires IsHex(hi) && IsHex(lo) && 16 * HexValue(hi) + HexValue(lo) < 0x80
    ensures Unquote(['%', hi, lo] + rest, plus) == [(16 * HexValue(hi) + HexValue(lo)) as char] + Unquote(rest, plus)
  {
    assert (['%', hi, lo] + rest)[3..] == rest;
  }

  // ---------------------------------------------------------------------
  // Items and the dictionary they build

  /** What one item contributes to the dictionary, if anything. */
  function Item(style: Style, piece: string): Option<(string, string)> {
    var p := if style == Cookie then Strip(piece) else piece;
    match SplitOnce(p, "=")
    case None => None
    case Some((k, v)) =>
      match style
      case Cookie => Some((Strip(k), Strip(v)))
      case FormPlus => Some((k, Unquote(v, true)))
      case Form => Some((Unquote(k, false), Unquote(v, false)))
  }

  function Items(style: Style, pieces: seq<string>): (r: seq<Option<(string, string)>>)
    ensures |r| == |pieces| && forall i :: 0 <= i < |pieces| ==> r[i] == Item(style, pieces[i])
  {
    seq(|pieces|, i requires 0 <= i < |pieces| => Item(style, pieces[i]))
  }

  /** The dictionary the items of pieces build. */
  function Fold(style: Style, pieces: seq<string>): map<string, string> {
    Assign(Items(style, pieces))
  }

  /** The dictionary a whole text parses to. */
  function Parse(style: Style, s: string): map<string, string> {
    Fold(style, Split(s, Separator(style)))
  }

  /** One more item: its key, if it has one, is (re)assigned. */
  lemma FoldStep(style: Style, pieces: seq<string>, i: nat)
    requires i < |pieces|
    ensures Fold(style, pieces[..i + 1]) ==
      match Item(style, pieces[i])
      case None => Fold(style, pieces[..i])
      case Some((k, v)) => Fold(style, pieces[..i])[k := v]
  {
    var items := Items(style, pieces[..i + 1]);
    assert items[..i] == Items(style, pieces[..i]);
    assert items[i] == Item(style, pieces[i]);
  }

  /** An item without `=` is skipped. */
  lemma ItemNeedsEquals(style: Style, piece: string)
    requires '=' !in piece
    ensures Item(style, piece).None?
  {
    var p := if style == Cookie then Strip(piece) else piece;
    assert forall i :: 0 <= i < |p| ==> p[i] in piece by {
      if style == Cookie {
        var l := LStrip(piece);
        LStripSpec(piece);
        RStripSpec(l);
        forall i | 0 <= i < |p| ensures p[i] in piece {
          assert p[i] == l[i] == piece[|piece| - |l| + i];
        }
      }
    }
    forall j | 0 <= j < |p| ensures !At(p, j, "=") {
      NotAtByHead(p, j, "=");
    }
    FindSpec(p, "=");
  }

  /**
   * A key is bound to the value of the last item that names it: the items
   * after it that name the same key are none.
   */
  lemma FoldLatest(style: Style, pieces: seq<string>, j: nat)
    requires j < |pieces| && Item(style, pieces[j]).Some?
    requires forall i :: j < i < |pieces| ==> Item(style, pieces[i]).None? || Item(style, pieces[i]).value.0 != Item(style, pieces[j]).value.0
    ensures Item(style, pieces[j]).value.0 in Fold(style, pieces)
    ensures Fold(style, pieces)[Item(style, pieces[j]).value.0] == Item(style, pieces[j]).value.1
  {
    AssignLatest(Items(style, pieces), j);
  }

  /** A key no item names is absent. */
  lemma FoldAbsent(style: Style, pieces: seq<string>, k: string)
    requires forall i :: 0 <= i < |pieces| ==> Item(style, pieces[i]).None? || Item(style, pieces[i]).value.0 != k
    ensures k !in Fold(style, pieces)
  {
    AssignAbsent(Items(style, pieces), k);
  }

  /** Every binding comes from some item. */
  lemma FoldFrom(style: Style, pieces: seq<string>, k: string)
    requires k in Fold(style, pieces)
    ensures exists i :: 0 <= i < |pieces| && Item(style, pieces[i]) == Some((k, Fold(style, pieces)[k]))
  {
    AssignFrom(Items(style, pieces), k);
  }

  /** An empty text parses to the empty dictionary. */
  lemma ParseEmpty(style: Style)
    ensures Parse(style, "") == map[]
  {
    SplitSingle("", Separator(style));
    ItemNeedsEquals(style, "");
  }
}
