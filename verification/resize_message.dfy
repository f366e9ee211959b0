/** The control-channel resize message: the text `snprintf("%d %d")`
    produces in the resize client and what `sscanf_s(buf, "%d %d", ...)`
    makes of received text in the proxy. Text is a sequence of characters,
    one per byte received. */
module ResizeMessage {
  import opened Common

  predicate IsDigit(c: char) {
    '0' <= c <= '9'
  }

  /** `isspace` in the C locale. */
  predicate IsSpace(c: char) {
    c == ' ' || c == '\t' || c == '\n' || c == '\U{0B}' || c == '\U{0C}' || c == '\r'
  }

  predicate AllDigits(s: string) {
    forall i :: 0 <= i < |s| ==> IsDigit(s[i])
  }

  function DigitValue(c: char): nat
    requires IsDigit(c)
  {
    c as int - '0' as int
  }

  function DigitChar(d: nat): (c: char)
    requires d < 10
    ensures IsDigit(c) && DigitValue(c) == d
  {
    ('0' as int + d) as char
  }

  /** The decimal numeral of `n`: most significant digit first, no leading zeros. */
  function Numeral(n: nat): (s: string)
    ensures 1 <= |s| && AllDigits(s)
    ensures |s| > 1 ==> s[0] != '0'
  {
    if n < 10 then [DigitChar(n)] else Numeral(n / 10) + [DigitChar(n % 10)]
  }

  /** The value of a digit string read most significant digit first. */
  function ValueOf(ds: string): nat
    requires AllDigits(ds)
  {
    if |ds| == 0 then 0 else ValueOf(ds[..|ds| - 1]) * 10 + DigitValue(ds[|ds| - 1])
  }

  lemma {:induction false} ValueOfNumeral(n: nat)
    ensures ValueOf(Numeral(n)) == n
  {
    if n >= 10 {
      var s := Numeral(n);
      assert s[..|s| - 1] == Numeral(n / 10);
      ValueOfNumeral(n / 10);
    }
  }

  function Pow10(k: nat): nat {
    if k == 0 then 1 else 10 * Pow10(k - 1)
  }

  lemma {:induction false} NumeralLength(n: nat, k: nat)
    requires 1 <= k && n < Pow10(k)
    ensures |Numeral(n)| <= k
  {
    if n >= 10 {
      NumeralLength(n / 10, k - 1);
    }
  }

  /** `%d` output for any `int`. */
  function FormatInt(v: int): string {
    if v < 0 then "-" + Numeral(-v) else Numeral(v)
  }

  /** The resize message `"%d %d"`. */
  function FormatSize(w: int, h: int): string {
    FormatInt(w) + " " + FormatInt(h)
  }

  /** A message built from two C `int`s is at most 23 bytes long. */
  lemma FormatSizeLength(w: int, h: int)
    requires IsInt32(w) && IsInt32(h)
    ensures |FormatSize(w, h)| <= 23
  {
    assert Pow10(10) == 10_000_000_000;
    NumeralLength(if w < 0 then -w else w, 10);
    NumeralLength(if h < 0 then -h else h, 10);
  }

  /** The first position at or after `i` that is not whitespace. */
  function SkipSpace(s: string, i: nat): (j: nat)
    requires i <= |s|
    ensures i <= j <= |s|
    ensures j == |s| || !IsSpace(s[j])
    decreases |s| - i
  {
    if i < |s| && IsSpace(s[i]) then SkipSpace(s, i + 1) else i
  }

  /** The end of the run of digits starting at `i`. */
  function DigitEnd(s: string, i: nat): (j: nat)
    requires i <= |s|
    ensures i <= j <= |s|
    ensures forall k :: i <= k < j ==> IsDigit(s[k])
    ensures j == |s| || !IsDigit(s[j])
    decreases |s| - i
  {
    if i < |s| && IsDigit(s[i]) then DigitEnd(s, i + 1) else i
  }

  /** One `%d` conversion starting at position `i`: optional whitespace, an
      optional sign, then at least one digit, read greedily. The value and
      the position after it, or `None` on a matching failure. */
  function ScanInt(s: string, i: nat): (r: Option<(int, nat)>)
    requires i <= |s|
    ensures r.Some? ==> i < r.value.1 <= |s|
  {
    var t := SkipSpace(s, i);
    var signed := t < |s| && (s[t] == '-' || s[t] == '+');
    var d := if signed then t + 1 else t;
    var e := DigitEnd(s, d);
    if e == d then None
    else
      assert AllDigits(s[d..e]) by {
        forall k | 0 <= k < e - d ensures IsDigit(s[d..e][k]) {
          assert s[d..e][k] == s[d + k];
        }
      }
      var m: int := ValueOf(s[d..e]);
      Some((if signed && s[t] == '-' then -m else m, e))
  }

  /** What `sscanf_s(buf, "%d %d", &width, &height)` leaves when both
      targets start at 0: how many were assigned, and their values. */
  datatype Scanned = Scanned(conversions: nat, width: int, height: int)

  function ScanSize(s: string): (r: Scanned)
    ensures r.conversions <= 2
    ensures r.conversions < 1 ==> r.width == 0
    ensures r.conversions < 2 ==> r.height == 0
  {
    match ScanInt(s, 0)
    case None => Scanned(0, 0, 0)
    case Some((w, i)) =>
      // The blank in the format skips whitespace; `%d` then skips more.
      match ScanInt(s, SkipSpace(s, i))
      case None => Scanned(1, w, 0)
      case Some((h, _)) => Scanned(2, w, h)
  }

  lemma {:induction false} DigitEndOfDigits(s: string, i: nat, j: nat)
    requires i <= j <= |s|
    requires AllDigits(s[i..j])
    requires j == |s| || !IsDigit(s[j])
    ensures DigitEnd(s, i) == j
    decreases j - i
  {
    if i < j {
      assert IsDigit(s[i..j][0]);
      assert s[i + 1..j] == s[i..j][1..];
      DigitEndOfDigits(s, i + 1, j);
    }
  }

  /** `%d` at position `i` reads back exactly the numeral `%d` wrote there,
      stopping before the next non-digit. */
  lemma ScanFormatted(s: string, i: nat, v: int)
    requires i + |FormatInt(v)| <= |s|
    requires s[i..i + |FormatInt(v)|] == FormatInt(v)
    requires i + |FormatInt(v)| == |s| || !IsDigit(s[i + |FormatInt(v)|])
    ensures ScanInt(s, i) == Some((v, i + |FormatInt(v)|))
  {
    var f := FormatInt(v);
    var e := i + |f|;
    var m := if v < 0 then -v else v;
    var ds := Numeral(m);
    var d := if v < 0 then i + 1 else i;
    assert s[i] == f[0];
    assert SkipSpace(s, i) == i;
    assert s[d..e] == ds;
    DigitEndOfDigits(s, d, e);
    ValueOfNumeral(m);
  }

  /** Round trip: the message the resize client writes parses back to
      exactly the two integers it was built from. */
  lemma FormatThenScan(w: int, h: int)
    ensures ScanSize(FormatSize(w, h)) == Scanned(2, w, h)
  {
    var fw, fh := FormatInt(w), FormatInt(h);
    var s := fw + " " + fh;
    assert s == FormatSize(w, h);
    var a := |fw|;
    assert s[0..a] == fw;
    assert s[a] == ' ';
    ScanFormatted(s, 0, w);
    assert ScanInt(s, 0) == Some((w, a));
    assert s[a + 1..a + 1 + |fh|] == fh;
    assert a + 1 + |fh| == |s|;
    assert !IsSpace(s[a + 1]) by {
      assert s[a + 1] == fh[0];
    }
    assert SkipSpace(s, a + 1) == a + 1;
    assert SkipSpace(s, a) == a + 1;
    ScanFormatted(s, a + 1, h);
  }
}
