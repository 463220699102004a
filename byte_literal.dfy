/**
 * The body of a generated `data_[]` array: the snapshot bytes as unsigned
 * decimals separated by commas, with a line break before every value whose
 * index has its five low bits set, and one line break after the last value.
 */
module ByteLiteral {
  import opened Common
  import opened Decimal

  /**
   * A line break precedes the value at index `i`: the writer tests whether the
   * five low bits of its non-negative index are all set, which is `i % 32 == 31`.
   */
  predicate BreaksBefore(i: nat)
  {
    i % 32 == 31
  }

  /** What one turn of the writer's loop prints for the value `b` at index `i`. */
  function Piece(i: nat, b: byte): string
  {
    (if BreaksBefore(i) then "\n" else "") + (if i > 0 then "," else "") + Digits(b)
  }

  /** What the first `k` turns of the loop print. */
  function Pieces(d: seq<byte>, k: nat): string
    requires k <= |d|
  {
    if k == 0 then "" else Pieces(d, k - 1) + Piece(k - 1, d[k - 1])
  }

  /** The complete literal body for `d`. */
  function Literal(d: seq<byte>): string
  {
    Pieces(d, |d|) + "\n"
  }

  predicate LiteralChar(c: char)
  {
    IsDigit(c) || c == ',' || c == '\n'
  }

  predicate OnlyLiteralChars(s: string)
  {
    forall i :: 0 <= i < |s| ==> LiteralChar(s[i])
  }

  lemma {:induction false} PiecesChars(d: seq<byte>, k: nat)
    requires k <= |d|
    ensures OnlyLiteralChars(Pieces(d, k))
  {
    if k > 0 {
      PiecesChars(d, k - 1);
      var brk := if BreaksBefore(k - 1) then "\n" else "";
      var sep := if k - 1 > 0 then "," else "";
      var digits := Digits(d[k - 1]);
      assert OnlyLiteralChars(brk + sep + digits);
      assert Pieces(d, k) == Pieces(d, k - 1) + (brk + sep + digits);
    }
  }

  /** The literal consists of digits, commas and line breaks only. */
  lemma LiteralChars(d: seq<byte>)
    ensures OnlyLiteralChars(Literal(d))
  {
    PiecesChars(d, |d|);
  }

  // ---------------------------------------------------------------------------
  // A reader for the literal, used to state that no byte is lost or altered.

  /** `s` with its line breaks removed. */
  function Strip(s: string): string
  {
    if s == [] then []
    else Strip(s[..|s| - 1]) + (if s[|s| - 1] == '\n' then [] else [s[|s| - 1]])
  }

  /** Length of the longest run of digits that ends `s`. */
  function TrailingDigits(s: string): (k: nat)
    ensures k <= |s| && AllDigits(s[|s| - k..])
  {
    if s == [] || !IsDigit(s[|s| - 1]) then 0
    else
      var k := TrailingDigits(s[..|s| - 1]) + 1;
      assert s[|s| - k..] == s[..|s| - 1][|s| - k..] + [s[|s| - 1]];
      k
  }

  /** Reads a comma-separated list of byte values, from its end towards its start. */
  function ParseItems(s: string): Option<seq<byte>>
    decreases |s|
  {
    var k := TrailingDigits(s);
    if k == 0 then None
    else
      var v := Value(s[|s| - k..]);
      if v > 255 then None
      else if k == |s| then Some([v])
      else if s[|s| - k - 1] == ',' && |s| - k - 1 > 0 then
        match ParseItems(s[..|s| - k - 1])
        case None => None
        case Some(init) => Some(init + [v])
      else None
  }

  /** Reads a literal body back into the bytes it lists. */
  function Decode(text: string): Option<seq<byte>>
  {
    if text == [] || text[|text| - 1] != '\n' then None
    else
      var body := Strip(text[..|text| - 1]);
      if body == [] then Some([]) else ParseItems(body)
  }

  /** The values of `d` with commas between them and nothing else. */
  function CommaList(d: seq<byte>): string
  {
    if |d| == 0 then ""
    else if |d| == 1 then Digits(d[0])
    else CommaList(d[..|d| - 1]) + "," + Digits(d[|d| - 1])
  }

  lemma {:induction false} StripAppend(a: string, b: string)
    ensures Strip(a + b) == Strip(a) + Strip(b)
    decreases |b|
  {
    if b != [] {
      assert (a + b)[..|a + b| - 1] == a + b[..|b| - 1];
      StripAppend(a, b[..|b| - 1]);
    } else {
      assert a + b == a;
    }
  }

  lemma {:induction false} StripDigits(s: string)
    requires AllDigits(s)
    ensures Strip(s) == s
    decreases |s|
  {
    if s != [] {
      StripDigits(s[..|s| - 1]);
      assert s[..|s| - 1] + [s[|s| - 1]] == s;
    }
  }

  lemma StripSmall(s: string)
    requires s == "" || s == "\n" || s == ","
    ensures Strip(s) == if s == "\n" then "" else s
  {
    if s != [] {
      assert s[..0] == [];
    }
  }

  /** Stripping a piece's parts: the optional break goes, the rest stays. */
  lemma StripParts(brk: string, sep: string, t: string)
    requires brk == "" || brk == "\n"
    requires sep == "" || sep == ","
    requires AllDigits(t)
    ensures Strip(brk + (sep + t)) == sep + t
  {
    StripAppend(brk, sep + t);
    StripAppend(sep, t);
    StripDigits(t);
    StripSmall(brk);
    StripSmall(sep);
  }

  lemma StripPiece(i: nat, b: byte)
    ensures Strip(Piece(i, b)) == (if i > 0 then "," else "") + Digits(b)
  {
    var brk := if BreaksBefore(i) then "\n" else "";
    var sep := if i > 0 then "," else "";
    var digits := Digits(b);
    assert Piece(i, b) == brk + (sep + digits);
    StripParts(brk, sep, digits);
  }

  lemma CommaListStep(d: seq<byte>, k: nat)
    requires 1 <= k <= |d|
    ensures CommaList(d[..k]) == CommaList(d[..k - 1]) + (if k > 1 then "," else "") + Digits(d[k - 1])
  {
    var e := d[..k];
    assert e[..k - 1] == d[..k - 1];
    assert e[k - 1] == d[k - 1];
    if k == 1 {
      assert d[..0] == [];
    }
  }

  lemma {:induction false} StripPieces(d: seq<byte>, k: nat)
    requires k <= |d|
    ensures Strip(Pieces(d, k)) == CommaList(d[..k])
  {
    if k > 0 {
      StripPieces(d, k - 1);
      StripAppend(Pieces(d, k - 1), Piece(k - 1, d[k - 1]));
      StripPiece(k - 1, d[k - 1]);
      CommaListStep(d, k);
    } else {
      assert d[..0] == [];
    }
  }

  lemma {:induction false} TrailingDigitsAfterComma(p: string, t: string)
    requires AllDigits(t) && t != []
    requires p == [] || p[|p| - 1] == ','
    ensures TrailingDigits(p + t) == |t|
    decreases |t|
  {
    var s := p + t;
    assert s[..|s| - 1] == p + t[..|t| - 1];
    if |t| == 1 {
      assert s[..|s| - 1] == p;
    } else {
      TrailingDigitsAfterComma(p, t[..|t| - 1]);
    }
  }

  /** A lone run of digits reads as the one value it denotes. */
  lemma ParseDigits(t: string)
    requires AllDigits(t) && t != [] && Value(t) <= 255
    ensures ParseItems(t) == Some([Value(t)])
  {
    TrailingDigitsAfterComma([], t);
    assert [] + t == t;
    assert t[|t| - |t|..] == t;
  }

  lemma ParseOne(b: byte)
    ensures ParseItems(Digits(b)) == Some([b])
  {
    ValueOfDigits(b);
    ParseDigits(Digits(b));
  }

  /** A run of digits after a comma adds its value to what precedes the comma. */
  lemma ParseAfterComma(p: string, t: string)
    requires p != [] && AllDigits(t) && t != [] && Value(t) <= 255
    ensures ParseItems(p + "," + t) ==
      match ParseItems(p)
      case None => None
      case Some(init) => Some(init + [Value(t)])
  {
    var q := p + ",";
    var s := q + t;
    TrailingDigitsAfterComma(q, t);
    var k := TrailingDigits(s);
    assert k == |t| && |s| - k == |q| && |s| - k - 1 == |p| > 0;
    assert s[|s| - k..] == t;
    assert s[|s| - k - 1] == ',';
    assert s[..|s| - k - 1] == p;
  }

  lemma ParseSnoc(p: string, b: byte)
    requires p != []
    ensures ParseItems(p + "," + Digits(b)) ==
      match ParseItems(p)
      case None => None
      case Some(init) => Some(init + [b])
  {
    ValueOfDigits(b);
    ParseAfterComma(p, Digits(b));
  }

  /** Reading a comma list gives back the values it was made from. */
  lemma {:induction false} ParseCommaList(d: seq<byte>)
    requires |d| >= 1
    ensures ParseItems(CommaList(d)) == Some(d)
    decreases |d|
  {
    if |d| == 1 {
      ParseOne(d[0]);
      assert d == [d[0]];
    } else {
      var init := d[..|d| - 1];
      var last := d[|d| - 1];
      assert CommaList(d) == CommaList(init) + "," + Digits(last);
      ParseCommaList(init);
      ParseSnoc(CommaList(init), last);
      assert init + [last] == d;
    }
  }

  /** Decoding the printed literal gives back exactly the bytes that were written. */
  lemma DecodeLiteral(d: seq<byte>)
    ensures Decode(Literal(d)) == Some(d)
  {
    var text := Literal(d);
    assert text[..|text| - 1] == Pieces(d, |d|);
    StripPieces(d, |d|);
    assert d[..|d|] == d;
    if |d| > 0 {
      ParseCommaList(d);
    }
  }

  /** Two byte lists print to the same literal only if they are equal. */
  lemma LiteralInjective(d: seq<byte>, e: seq<byte>)
    requires Literal(d) == Literal(e)
    ensures d == e
  {
    DecodeLiteral(d);
    DecodeLiteral(e);
  }

  // ---------------------------------------------------------------------------
  // Layout: where the line breaks and commas fall.

  lemma {:induction false} CountOfDigits(s: string, c: char)
    requires AllDigits(s) && !IsDigit(c)
    ensures Count(s, c) == 0
    decreases |s|
  {
    if s != [] {
      CountOfDigits(s[..|s| - 1], c);
    }
  }

  /** Line breaks and commas in a piece's parts: one per part that is present. */
  lemma CountParts(brk: string, sep: string, t: string)
    requires brk == "" || brk == "\n"
    requires sep == "" || sep == ","
    requires AllDigits(t)
    ensures Count(brk + (sep + t), '\n') == |brk|
    ensures Count(brk + (sep + t), ',') == |sep|
  {
    CountAppend(brk, sep + t, '\n');
    CountAppend(sep, t, '\n');
    CountAppend(brk, sep + t, ',');
    CountAppend(sep, t, ',');
    CountOfDigits(t, '\n');
    CountOfDigits(t, ',');
    if brk != [] { assert brk[..0] == []; }
    if sep != [] { assert sep[..0] == []; }
  }

  lemma CountPiece(i: nat, b: byte)
    ensures Count(Piece(i, b), '\n') == (if BreaksBefore(i) then 1 else 0)
    ensures Count(Piece(i, b), ',') == (if i > 0 then 1 else 0)
  {
    var brk := if BreaksBefore(i) then "\n" else "";
    var sep := if i > 0 then "," else "";
    assert Piece(i, b) == brk + (sep + Digits(b));
    CountParts(brk, sep, Digits(b));
  }

  lemma CountPiecesStep(d: seq<byte>, k: nat, c: char)
    requires 0 < k <= |d|
    ensures Count(Pieces(d, k), c) == Count(Pieces(d, k - 1), c) + Count(Piece(k - 1, d[k - 1]), c)
  {
    CountAppend(Pieces(d, k - 1), Piece(k - 1, d[k - 1]), c);
  }

  lemma GroupStep(j: nat)
    ensures (j + 1) / 32 == j / 32 + (if BreaksBefore(j) then 1 else 0)
  {
  }

  lemma {:induction false} NewlinesInPieces(d: seq<byte>, k: nat)
    requires k <= |d|
    ensures Count(Pieces(d, k), '\n') == k / 32
  {
    if k > 0 {
      NewlinesInPieces(d, k - 1);
      CountPiece(k - 1, d[k - 1]);
      CountPiecesStep(d, k, '\n');
      GroupStep(k - 1);
    }
  }

  lemma {:induction false} CommasInPieces(d: seq<byte>, k: nat)
    requires k <= |d|
    ensures Count(Pieces(d, k), ',') == (if k == 0 then 0 else k - 1)
  {
    if k > 0 {
      CommasInPieces(d, k - 1);
      CountPiece(k - 1, d[k - 1]);
      CountPiecesStep(d, k, ',');
    }
  }

  /**
   * The literal holds one line break per full group of 32 values plus the
   * closing one, and one comma fewer than there are values: no comma trails
   * the last value.
   */
  lemma LiteralLayout(d: seq<byte>)
    ensures Count(Literal(d), '\n') == |d| / 32 + 1
    ensures Count(Literal(d), ',') == (if d == [] then 0 else |d| - 1)
    ensures d != [] ==> IsDigit(Literal(d)[|Literal(d)| - 2])
  {
    NewlinesInPieces(d, |d|);
    CommasInPieces(d, |d|);
    CountAppend(Pieces(d, |d|), "\n", '\n');
    CountAppend(Pieces(d, |d|), "\n", ',');
    assert Count("\n", '\n') == 1 by { assert "\n"[..0] == []; }
    assert Count("\n", ',') == 0 by { assert "\n"[..0] == []; }
    if d != [] {
      var last := Digits(d[|d| - 1]);
      assert Pieces(d, |d|)[|Pieces(d, |d|)| - 1] == last[|last| - 1];
    }
  }

  /** What the first `i` turns print is a prefix of what the first `k` print. */
  lemma {:induction false} PiecesPrefix(d: seq<byte>, i: nat, k: nat)
    requires i <= k <= |d|
    ensures |Pieces(d, i)| <= |Pieces(d, k)| && Pieces(d, k)[..|Pieces(d, i)|] == Pieces(d, i)
    decreases k - i
  {
    if i < k {
      PiecesPrefix(d, i + 1, k);
      var q := Pieces(d, i + 1);
      assert q == Pieces(d, i) + Piece(i, d[i]);
      assert Pieces(d, k)[..|Pieces(d, i)|] == q[..|Pieces(d, i)|];
    }
  }

  /** The text printed for the value at index `i` sits in the literal right after the earlier values' text. */
  lemma PieceInLiteral(d: seq<byte>, i: nat)
    requires i < |d|
    ensures var p := |Pieces(d, i)|;
      p + |Piece(i, d[i])| < |Literal(d)|
      && Literal(d)[p..p + |Piece(i, d[i])|] == Piece(i, d[i])
      && Literal(d)[|Literal(d)| - 1] == '\n'
  {
    var before := Pieces(d, i);
    var piece := Piece(i, d[i]);
    PiecesPrefix(d, i + 1, |d|);
    assert Pieces(d, i + 1) == before + piece;
    var all := Pieces(d, |d|);
    assert all[|before|..|before + piece|] == piece;
    assert Literal(d)[|before|..|before + piece|] == all[|before|..|before + piece|];
  }

  /**
   * Where the separators fall: the text printed for the value at index `i`
   * starts right after what the earlier values printed. The first value opens
   * with a digit; a value whose index has its five low bits set opens with a
   * line break followed by a comma; any other value opens with a comma. The
   * literal closes with a line break.
   */
  lemma LiteralBreaks(d: seq<byte>, i: nat)
    requires i < |d|
    ensures var lit := Literal(d);
      var p := |Pieces(d, i)|;
      (i % 32 == 31 ==> p + 2 < |lit|)
      && (i % 32 != 31 ==> p + 1 < |lit|)
      && lit[|lit| - 1] == '\n'
      && (i == 0 ==> p == 0 && IsDigit(lit[0]))
      && (0 < i && i % 32 != 31 ==> lit[p] == ',' && IsDigit(lit[p + 1]))
      && (i % 32 == 31 ==> lit[p] == '\n' && lit[p + 1] == ',' && IsDigit(lit[p + 2]))
  {
    var lit := Literal(d);
    var p := |Pieces(d, i)|;
    var piece := Piece(i, d[i]);
    var digits := Digits(d[i]);
    PieceInLiteral(d, i);
    assert lit[p..p + |piece|] == piece;
    if i == 0 {
      assert piece == digits;
      assert lit[0] == piece[0];
    } else if i % 32 != 31 {
      assert piece == [','] + digits;
      assert lit[p] == piece[0] && lit[p + 1] == piece[1];
    } else {
      assert piece == ['\n', ','] + digits;
      assert lit[p] == piece[0] && lit[p + 1] == piece[1] && lit[p + 2] == piece[2];
    }
  }
}
