/** Amount texts: plain digits with an optional point, at most 128 characters. */
module DecimalTexts {
  import opened Options
  import opened Decimals

  const MAX_TEXT := 128

  predicate IsDigit(c: char) {
    '0' <= c <= '9'
  }

  predicate AllDigits(s: string) {
    forall i :: 0 <= i < |s| ==> IsDigit(s[i])
  }

  function DigitOf(c: char): nat
    requires IsDigit(c)
  {
    c as int - '0' as int
  }

  function CharOf(n: nat): char
    requires n < 10
  {
    (n + '0' as int) as char
  }

  /** The number a run of digits denotes. */
  function ReadDigits(s: string): nat
    requires AllDigits(s)
  {
    if s == "" then 0 else 10 * ReadDigits(s[..|s| - 1]) + DigitOf(s[|s| - 1])
  }

  /** The shortest run of digits for a number. */
  function ShowDigits(n: nat): (s: string)
    ensures s != "" && AllDigits(s)
  {
    if n < 10 then [CharOf(n)] else ShowDigits(n / 10) + [CharOf(n % 10)]
  }

  function Zeros(k: nat): (s: string)
    ensures |s| == k && AllDigits(s)
  {
    if k == 0 then "" else Zeros(k - 1) + "0"
  }

  /** Position of the first point, or the length. */
  function PointAt(s: string): (k: nat)
    ensures k <= |s|
    ensures k < |s| ==> s[k] == '.'
    ensures forall i :: 0 <= i < k ==> s[i] != '.'
  {
    if s == "" then 0 else if s[0] == '.' then 0 else 1 + PointAt(s[1..])
  }

  /** One zero alone, or digits that do not start with zero. */
  predicate IsWhole(s: string) {
    s != "" && AllDigits(s) && (s == "0" || s[0] != '0')
  }

  predicate IsPlain(body: string) {
    var k := PointAt(body);
    IsWhole(body[..k]) && (k < |body| ==> body[k + 1..] != "" && AllDigits(body[k + 1..]))
  }

  function Body(s: string): string {
    if s != "" && s[0] == '-' then s[1..] else s
  }

  function ReadPlain(body: string): (r: (nat, nat))
    requires IsPlain(body)
  {
    var k := PointAt(body);
    var places := if k < |body| then body[k + 1..] else "";
    (ReadDigits(body[..k] + places), |places|)
  }

  /** Parse an amount; a minus sign is let through only on zero. */
  function ParseAmount(s: string): (r: Option<Dec>) {
    if |s| > MAX_TEXT || !IsPlain(Body(s)) then None
    else
      var (coef, places) := ReadPlain(Body(s));
      if Body(s) != s && coef != 0 then None
      else Some(Dec(Body(s) != s, coef, -(places as int)))
  }

  /** The digits with enough leading zeros to leave one before the point. */
  function Padded(coef: nat, places: nat): (s: string)
    ensures AllDigits(s) && |s| > places
  {
    var digits := ShowDigits(coef);
    if |digits| <= places then Zeros(places + 1 - |digits|) + digits else digits
  }

  function Join(whole: string, tail: string): string {
    if tail == "" then whole else whole + ("." + tail)
  }

  function ShowBody(coef: nat, places: nat): string {
    var p := Padded(coef, places);
    Join(p[..|p| - places], p[|p| - places..])
  }

  /** Fixed-point text of a decimal. */
  function Show(d: Dec): string {
    (if d.neg then "-" else "") +
    (if d.exp <= 0 then ShowBody(d.coef, -d.exp) else if d.coef == 0 then "0" else ShowDigits(d.coef) + Zeros(d.exp))
  }

  // ---- reading what was shown -----------------------------------------------------------------

  lemma {:induction false} ReadShown(n: nat)
    ensures ReadDigits(ShowDigits(n)) == n
    ensures IsWhole(ShowDigits(n))
    ensures n > 0 ==> ShowDigits(n)[0] != '0'
  {
    if n >= 10 {
      ReadShown(n / 10);
      var s := ShowDigits(n);
      assert s[..|s| - 1] == ShowDigits(n / 10);
    } else {
      assert [CharOf(n)][..0] == "";
    }
  }

  lemma {:induction false} ReadPadded(k: nat, s: string)
    requires AllDigits(s)
    ensures ReadDigits(Zeros(k) + s) == ReadDigits(s)
    decreases |s|, k
  {
    if s == "" {
      assert Zeros(k) + s == Zeros(k);
      if k > 0 {
        assert Zeros(k)[..k - 1] == Zeros(k - 1);
        ReadPadded(k - 1, "");
        assert Zeros(k - 1) + "" == Zeros(k - 1);
      }
    } else {
      var t := Zeros(k) + s;
      assert t[..|t| - 1] == Zeros(k) + s[..|s| - 1];
      ReadPadded(k, s[..|s| - 1]);
    }
  }

  lemma {:induction false} ZerosStart(k: nat)
    requires k > 0
    ensures Zeros(k)[0] == '0'
  {
    if k > 1 {
      ZerosStart(k - 1);
    }
  }

  /** Cutting the padded digits before the last places leaves a whole part without a leading zero. */
  lemma PaddedIsWhole(coef: nat, places: nat)
    ensures IsWhole(Padded(coef, places)[..|Padded(coef, places)| - places])
    ensures ReadDigits(Padded(coef, places)) == coef
  {
    var digits, p := ShowDigits(coef), Padded(coef, places);
    ReadShown(coef);
    if |digits| <= places {
      ReadPadded(places + 1 - |digits|, digits);
      ZerosStart(places + 1 - |digits|);
      assert p[..|p| - places] == "0";
    } else if coef == 0 {
      assert digits == "0" && places == 0;
      assert p[..|p| - places] == "0";
    } else {
      assert p[..|p| - places][0] == digits[0];
    }
  }

  lemma {:induction false} PointAfterDigits(whole: string, rest: string)
    requires AllDigits(whole)
    ensures PointAt(whole + rest) == |whole| + PointAt(rest)
  {
    if whole == "" {
      assert whole + rest == rest;
    } else {
      PointAfterDigits(whole[1..], rest);
      assert (whole + rest)[1..] == whole[1..] + rest;
    }
  }

  lemma JoinReads(whole: string, tail: string)
    requires IsWhole(whole) && AllDigits(tail)
    ensures IsPlain(Join(whole, tail)) && ReadPlain(Join(whole, tail)) == (ReadDigits(whole + tail), |tail|)
  {
    hide ReadDigits, PointAt;
    var body := Join(whole, tail);
    if tail == "" {
      PointAfterDigits(body, "");
      assert body + "" == body && body[..|body|] == body && whole + tail == body;
    } else {
      PointAfterDigits(whole, "." + tail);
      PointFirst(tail);
      assert body[..|whole|] == whole && body[|whole| + 1..] == tail;
    }
  }

  lemma PointFirst(tail: string)
    ensures PointAt("." + tail) == 0
  {
  }

  lemma ReadShownBody(coef: nat, places: nat)
    ensures IsPlain(ShowBody(coef, places)) && ReadPlain(ShowBody(coef, places)) == (coef, places)
  {
    PaddedIsWhole(coef, places);
    hide ReadDigits, Padded, IsWhole, Join, IsPlain, ReadPlain;
    var p := Padded(coef, places);
    JoinReads(p[..|p| - places], p[|p| - places..]);
    assert p[..|p| - places] + p[|p| - places..] == p;
  }

  /** A shown body starts with a digit, so it carries no sign of its own. */
  lemma ShownBodyStarts(coef: nat, places: nat)
    ensures ShowBody(coef, places) != "" && IsDigit(ShowBody(coef, places)[0])
  {
    ReadShownBody(coef, places);
    var body := ShowBody(coef, places);
    assert body[..PointAt(body)][0] == body[0];
  }

  /** Round trip: the text of a decimal that fits reads back as the same decimal. */
  lemma ShownReadsBack(d: Dec)
    requires d.exp <= 0 && |Show(d)| <= MAX_TEXT
    ensures ParseAmount(Show(d)) == Some(d)
  {
    hide ShowBody, IsPlain, ReadPlain;
    ReadShownBody(d.coef, -d.exp);
    ShownBodyStarts(d.coef, -d.exp);
    var body := ShowBody(d.coef, -d.exp);
    if d.neg {
      assert Show(d) == "-" + body && Show(d)[1..] == body;
    } else {
      assert Show(d) == "" + body == body;
    }
    assert Body(Show(d)) == body;
  }

  lemma {:induction false} ReadShifted(s: string, k: nat)
    requires AllDigits(s)
    ensures ReadDigits(s + Zeros(k)) == ReadDigits(s) * Pow(k)
  {
    if k == 0 {
      assert s + Zeros(0) == s;
    } else {
      var t := s + Zeros(k);
      assert t[..|t| - 1] == s + Zeros(k - 1);
      ReadShifted(s, k - 1);
      TenTimes(ReadDigits(s), Pow(k - 1));
    }
  }

  lemma TenTimes(a: nat, p: nat)
    ensures 10 * (a * p) == a * (10 * p)
  {
  }

  /** A text without a point reads as a whole number. */
  lemma WholeReads(s: string)
    requires IsWhole(s) && |s| <= MAX_TEXT
    ensures ParseAmount(s) == Some(Dec(false, ReadDigits(s), 0))
  {
    hide ReadDigits, PointAt;
    PointAfterDigits(s, "");
    assert s + "" == s && s[..|s|] == s;
    assert IsDigit(s[0]);
  }

  lemma LargeShows(d: Dec)
    requires d.exp > 0 && d.coef > 0
    ensures IsWhole(Show(d)) && ReadDigits(Show(d)) == d.coef * Pow(d.exp)
  {
    ReadShown(d.coef);
    ReadShifted(ShowDigits(d.coef), d.exp);
    hide ReadDigits, ShowDigits, Zeros, Pow;
    var body := ShowDigits(d.coef) + Zeros(d.exp);
    assert Show(d) == "" + body == body;
    assert body[0] == ShowDigits(d.coef)[0];
  }

  /** The text of any decimal, within 128 characters, is accepted and reads back with the same sign and value. */
  lemma ShownKeepsValue(d: Dec)
    requires |Show(d)| <= MAX_TEXT
    ensures ParseAmount(Show(d)).Some?
    ensures ParseAmount(Show(d)).value.neg == d.neg && Val(ParseAmount(Show(d)).value) == Val(d)
  {
    hide Show, ParseAmount, ReadDigits, Pow, Scale, IsWhole;
    if d.exp <= 0 {
      ShownReadsBack(d);
    } else if d.coef == 0 {
      ZeroReadsBack(d);
    } else {
      LargeShows(d);
      WholeReads(Show(d));
      Rescaled(d, 0);
    }
  }

  lemma ZeroReadsBack(d: Dec)
    requires d.exp > 0 && d.coef == 0
    ensures ParseAmount(Show(d)).Some?
    ensures ParseAmount(Show(d)).value.neg == d.neg && Val(ParseAmount(Show(d)).value) == Val(d)
  {
    var zero := Dec(d.neg, 0, 0);
    ReadShown(0);
    assert ShowDigits(0) == "0";
    assert Padded(0, 0) == "0" && ShowBody(0, 0) == "0";
    assert Show(d) == Show(zero);
    ShownReadsBack(zero);
  }

  // ---- showing what was read -------------------------------------------------------------------

  /** A run of digits is what its number shows, after leading zeros. */
  lemma {:induction false} DigitsArePadded(s: string, n: nat)
    requires s != "" && AllDigits(s) && n == ReadDigits(s)
    ensures |ShowDigits(n)| <= |s| && s == Zeros(|s| - |ShowDigits(n)|) + ShowDigits(n)
  {
    var k := |s| - 1;
    var front, m := s[..k], ReadDigits(s[..k]);
    assert s == front + [s[k]] && n == 10 * m + DigitOf(s[k]) && CharOf(DigitOf(s[k])) == s[k];
    if k == 0 {
      assert front == "" && m == 0;
    } else {
      DigitsArePadded(front, m);
      assert n / 10 == m && n % 10 == DigitOf(s[k]);
      if m == 0 {
        assert ShowDigits(0) == "0";
        assert front == Zeros(k - 1) + "0" == Zeros(k);
      }
    }
  }

  /** The digits of a plain body, padded for its places, are the digits as written. */
  lemma PlainIsPadded(whole: string, tail: string)
    requires IsWhole(whole) && AllDigits(tail)
    ensures Padded(ReadDigits(whole + tail), |tail|) == whole + tail
  {
    hide ReadDigits, ShowDigits, Zeros;
    var all := whole + tail;
    var n := ReadDigits(all);
    DigitsArePadded(all, n);
    hide AllDigits, IsDigit;
    var gap := |all| - |ShowDigits(n)|;
    if gap > 0 {
      ZerosStart(gap);
      assert all[0] == whole[0] && all[0] == '0';
    } else {
      assert Zeros(0) + ShowDigits(n) == ShowDigits(n);
    }
  }

  lemma BodyShows(body: string)
    requires IsPlain(body)
    ensures ShowBody(ReadPlain(body).0, ReadPlain(body).1) == body
  {
    var k := PointAt(body);
    var whole, tail := body[..k], if k < |body| then body[k + 1..] else "";
    hide ReadDigits, Padded, PointAt;
    PlainIsPadded(whole, tail);
    var p := whole + tail;
    assert p[..|p| - |tail|] == whole && p[|p| - |tail|..] == tail;
    assert Join(whole, tail) == body;
  }

  /** Round trip: every accepted text is the text of the decimal it reads as. */
  lemma ReadShowsBack(s: string)
    requires ParseAmount(s).Some?
    ensures Show(ParseAmount(s).value) == s
  {
    hide IsPlain, ReadPlain, ShowBody;
    BodyShows(Body(s));
    assert s == (if Body(s) != s then "-" else "") + Body(s);
  }

  /** The accepted texts are exactly the texts, of at most 128 characters, of decimals without a positive exponent. */
  lemma AmountIff(s: string)
    ensures ParseAmount(s).Some? <==> |s| <= 128 && exists d: Dec :: d.exp <= 0 && Show(d) == s
  {
    if ParseAmount(s).Some? {
      ReadShowsBack(s);
      assert ParseAmount(s).value.exp <= 0;
    }
    if d: Dec :| d.exp <= 0 && Show(d) == s && |s| <= 128 {
      ShownReadsBack(d);
    }
  }

  // ---- how large a read amount can be --------------------------------------------------------------

  lemma {:induction false} ReadBelow(s: string)
    requires AllDigits(s)
    ensures ReadDigits(s) < Pow(|s|)
  {
    if s != "" {
      ReadBelow(s[..|s| - 1]);
    }
  }

  /** A parsed amount has at most 128 digits and at most 128 places. */
  lemma ParsedFits(s: string)
    requires ParseAmount(s).Some?
    ensures Fits(ParseAmount(s).value, MAX_TEXT, MAX_TEXT)
  {
    hide Pow;
    var body := Body(s);
    var k := PointAt(body);
    var places := if k < |body| then body[k + 1..] else "";
    var all := body[..k] + places;
    ReadBelow(all);
    PowGrows(|all|, MAX_TEXT);
  }
}
