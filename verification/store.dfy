/** The rows of the worker's relational store (users, bookmarks, rate-limit
    records) held in memory, with the parameterised queries the controllers
    and the token service issue. `up` says whether the database answers at
    all; every query throws when it does not. Rows are kept in insertion
    order, which is the order the model returns them in. */
module Store {
  import opened Base
  import opened Clock

  /** `created_at` and `updated_at` hold the text the database's
      `CURRENT_TIMESTAMP` produced (see `CurrentTimestamp`). */
  datatype User = User(id: int, email: string, passwordHash: string, createdAt: string)

  datatype Bookmark = Bookmark(id: int, userId: int, title: string, url: string, createdAt: string, updatedAt: string)

  datatype RateRecord = RateRecord(key: string, timestamp: int)

  datatype Db = Db(
    up: bool,
    users: seq<User>,
    bookmarks: seq<Bookmark>,
    rateLimits: seq<RateRecord>,
    nextUserId: int,
    nextBookmarkId: int)

  /** `SELECT ... FROM users WHERE id = ?`. */
  function UserById(users: seq<User>, id: int): (u: Option<User>)
    ensures u.Some? ==> u.value in users && u.value.id == id
    ensures u.None? ==> forall k :: 0 <= k < |users| ==> users[k].id != id
    decreases |users|
  {
    if |users| == 0 then None
    else if users[0].id == id then Some(users[0])
    else UserById(users[1..], id)
  }

  /** `SELECT ... FROM users WHERE email = ?` (exact, case-sensitive). */
  function UserByEmail(users: seq<User>, email: string): (u: Option<User>)
    ensures u.Some? ==> u.value in users && u.value.email == email
    ensures u.None? ==> forall k :: 0 <= k < |users| ==> users[k].email != email
    decreases |users|
  {
    if |users| == 0 then None
    else if users[0].email == email then Some(users[0])
    else UserByEmail(users[1..], email)
  }

  /** The row a bookmark query scoped by `(id, user_id)` addresses. */
  predicate Addressed(b: Bookmark, id: int, userId: int) {
    b.id == id && b.userId == userId
  }

  /** `SELECT ... FROM bookmarks WHERE id = ? AND user_id = ?`. */
  function FindBookmark(bookmarks: seq<Bookmark>, id: int, userId: int): (b: Option<Bookmark>)
    ensures b.Some? ==> b.value in bookmarks && Addressed(b.value, id, userId)
    ensures b.None? ==> forall k :: 0 <= k < |bookmarks| ==> !Addressed(bookmarks[k], id, userId)
    decreases |bookmarks|
  {
    if |bookmarks| == 0 then None
    else if Addressed(bookmarks[0], id, userId) then Some(bookmarks[0])
    else FindBookmark(bookmarks[1..], id, userId)
  }

  /** `SELECT ... FROM bookmarks WHERE user_id = ?`. */
  function BookmarksOf(bookmarks: seq<Bookmark>, userId: int): (r: seq<Bookmark>)
    ensures forall k :: 0 <= k < |r| ==> r[k].userId == userId && r[k] in bookmarks
    ensures |r| <= |bookmarks|
    decreases |bookmarks|
  {
    if |bookmarks| == 0 then []
    else (if bookmarks[0].userId == userId then [bookmarks[0]] else []) + BookmarksOf(bookmarks[1..], userId)
  }

  /** `UPDATE bookmarks SET title = ?, url = ?, updated_at = CURRENT_TIMESTAMP
      WHERE id = ? AND user_id = ?`. */
  function UpdateBookmarks(bookmarks: seq<Bookmark>, id: int, userId: int, title: string, url: string, now: int): (r: seq<Bookmark>)
    ensures |r| == |bookmarks|
    ensures forall k :: 0 <= k < |r| ==>
              if Addressed(bookmarks[k], id, userId)
              then r[k] == bookmarks[k].(title := title, url := url, updatedAt := CurrentTimestamp(now))
              else r[k] == bookmarks[k]
  {
    seq(|bookmarks|, k requires 0 <= k < |bookmarks| =>
      if Addressed(bookmarks[k], id, userId)
      then bookmarks[k].(title := title, url := url, updatedAt := CurrentTimestamp(now))
      else bookmarks[k])
  }

  /** `DELETE FROM bookmarks WHERE id = ? AND user_id = ?`. */
  function DeleteBookmarks(bookmarks: seq<Bookmark>, id: int, userId: int): (r: seq<Bookmark>)
    ensures forall b :: b in r <==> b in bookmarks && !Addressed(b, id, userId)
    decreases |bookmarks|
  {
    if |bookmarks| == 0 then []
    else (if Addressed(bookmarks[0], id, userId) then [] else [bookmarks[0]]) + DeleteBookmarks(bookmarks[1..], id, userId)
  }

  // ---------------------------------------------------------------------
  // a bound text compared with an INTEGER column

  /** The characters SQLite skips around a number: space, tab, line feed,
      vertical tab, form feed and carriage return. */
  predicate IsSqlSpace(c: char) {
    c == ' ' || '\t' <= c <= '\r'
  }

  function SqlTrimStart(s: string): (r: string)
    ensures r != "" ==> !IsSqlSpace(r[0])
    decreases |s|
  {
    if |s| > 0 && IsSqlSpace(s[0]) then SqlTrimStart(s[1..]) else s
  }

  function SqlTrimEnd(s: string): (r: string)
    ensures r != "" ==> !IsSqlSpace(r[|r| - 1])
    decreases |s|
  {
    if |s| > 0 && IsSqlSpace(s[|s| - 1]) then SqlTrimEnd(s[..|s| - 1]) else s
  }

  /** `mantissa × 10^exponent`. */
  datatype Decimal = Decimal(mantissa: int, exponent: int)

  function Pow10(k: nat): (r: nat)
    ensures r >= 1
  {
    if k == 0 then 1 else 10 * Pow10(k - 1)
  }

  /** The exponent part of a number literal: nothing, or `e`/`E`, an
      optional sign and at least one digit, ending the text. */
  function ExponentPart(tail: string): (r: Option<int>)
    ensures tail == "" ==> r == Some(0)
  {
    if tail == "" then Some(0)
    else if tail[0] != 'e' && tail[0] != 'E' then None
    else
      var v := tail[1..];
      var digits := if |v| > 0 && (v[0] == '-' || v[0] == '+') then v[1..] else v;
      var n := DigitPrefixLength(digits);
      if n == 0 || n != |digits| then None
      else
        assert digits[..n] == digits;
        Some((if |v| > 0 && v[0] == '-' then -1 else 1) * DigitsValue(digits))
  }

  /** The number SQLite reads a text as when a comparison gives it numeric
      affinity: after skipping surrounding white space, an optional sign,
      digits with an optional `.` and fraction (at least one digit in all),
      and an optional exponent. Any other text stays text. */
  function NumericValue(text: string): (r: Option<Decimal>)
  {
    ReadNumber(SqlTrimEnd(SqlTrimStart(text)))
  }

  /** The number literal a trimmed text spells, if it spells one. */
  function ReadNumber(t: string): (r: Option<Decimal>)
  {
    if |t| > 0 && t[0] == '-' then Negated(ReadUnsigned(t[1..]))
    else if |t| > 0 && t[0] == '+' then ReadUnsigned(t[1..])
    else ReadUnsigned(t)
  }

  function Negated(r: Option<Decimal>): Option<Decimal> {
    match r
    case None => None
    case Some(d) => Some(d.(mantissa := -d.mantissa))
  }

  /** An unsigned literal: whole digits, then the rest. */
  function ReadUnsigned(u: string): (r: Option<Decimal>)
  {
    var w := DigitPrefixLength(u);
    ReadFraction(u[..w], u[w..])
  }

  /** After the whole digits: an optional `.` and fraction digits, then the
      exponent part; at least one digit overall. */
  function ReadFraction(whole: string, v: string): (r: Option<Decimal>)
    requires forall i :: 0 <= i < |whole| ==> IsDigit(whole[i])
  {
    var hasPoint := |v| > 0 && v[0] == '.';
    var afterPoint := if hasPoint then v[1..] else v;
    var f := if hasPoint then DigitPrefixLength(afterPoint) else 0;
    var digits := whole + afterPoint[..f];
    if |whole| + f == 0 then None
    else
      assert forall i :: 0 <= i < |digits| ==> IsDigit(digits[i]);
      match ExponentPart(afterPoint[f..])
      case None => None
      case Some(e) => Some(Decimal(DigitsValue(digits), e - f))
  }

  /** The integer a decimal equals, if it is one. */
  function IntegerValue(d: Decimal): (r: Option<int>)
    ensures d.exponent >= 0 ==> r == Some(d.mantissa * Pow10(d.exponent))
    ensures d.exponent < 0 ==>
              && (r.Some? <==> d.mantissa % Pow10(-d.exponent) == 0)
              && (r.Some? ==> r.value * Pow10(-d.exponent) == d.mantissa)
  {
    if d.exponent >= 0 then Some(d.mantissa * Pow10(d.exponent))
    else if d.mantissa % Pow10(-d.exponent) == 0 then Some(d.mantissa / Pow10(-d.exponent))
    else None
  }

  /** `n` and a half, written with one decimal place, is not an integer. */
  lemma HalfIsNotInteger(n: int)
    ensures IntegerValue(Decimal(n * 10 + 5, -1)) == None
  {
    assert Pow10(1) == 10;
    assert (n * 10 + 5) % 10 == 5;
  }

  /** A leading sign only negates what the unsigned rest reads as. */
  lemma {:induction false} ReadSigned(sign: string, u: string)
    requires sign == "" || sign == "-" || sign == "+"
    requires u != "" && IsDigit(u[0])
    ensures ReadNumber(sign + u) == if sign == "-" then Negated(ReadUnsigned(u)) else ReadUnsigned(u)
  {
    var t := sign + u;
    if sign == "" {
      assert t == u;
    } else {
      assert t[0] == sign[0] && t[1..] == u;
    }
  }

  /** A run of digits, optionally signed, reads as that integer. */
  lemma {:induction false} NumericValueOfDigits(sign: string, digits: string)
    requires sign == "" || sign == "-" || sign == "+"
    requires digits != "" && forall i :: 0 <= i < |digits| ==> IsDigit(digits[i])
    ensures NumericValue(sign + digits) == Some(Decimal(if sign == "-" then -(DigitsValue(digits) as int) else DigitsValue(digits), 0))
  {
    var s := sign + digits;
    var d := Decimal(DigitsValue(digits), 0);
    assert NumericValue(s) == ReadNumber(s) by {
      assert s[|s| - 1] == digits[|digits| - 1];
      assert s[0] == if sign == "" then digits[0] else sign[0];
      NumericValueUnpadded(s);
    }
    assert ReadUnsigned(digits) == Some(d) by {
      UnsignedDigits(digits);
    }
    assert ReadNumber(s) == if sign == "-" then Negated(ReadUnsigned(digits)) else ReadUnsigned(digits) by {
      ReadSigned(sign, digits);
    }
    SignApplied(sign == "-", ReadUnsigned(digits), ReadNumber(s), DigitsValue(digits), 0);
    assert NumericValue(s) == Some(Decimal(if sign == "-" then -(DigitsValue(digits) as int) else DigitsValue(digits), 0));
  }

  lemma {:induction false} SignApplied(negative: bool, unsigned: Option<Decimal>, r: Option<Decimal>, m: int, e: int)
    requires unsigned == Some(Decimal(m, e))
    requires r == if negative then Negated(unsigned) else unsigned
    ensures r == Some(Decimal(if negative then -m else m, e))
  {
  }

  lemma {:induction false} UnsignedDigits(digits: string)
    requires digits != "" && forall i :: 0 <= i < |digits| ==> IsDigit(digits[i])
    ensures ReadUnsigned(digits) == Some(Decimal(DigitsValue(digits), 0))
  {
    DigitPrefixOfDigits(digits);
    assert digits[..|digits|] == digits && digits[|digits|..] == "";
    assert digits + ""[..0] == digits;
  }

  lemma {:induction false} SqlTrimStartPadded(pre: string, s: string)
    requires forall i :: 0 <= i < |pre| ==> IsSqlSpace(pre[i])
    requires s != "" && !IsSqlSpace(s[0])
    ensures SqlTrimStart(pre + s) == s
    decreases |pre|
  {
    if pre == "" {
      assert pre + s == s;
    } else {
      assert (pre + s)[1..] == pre[1..] + s;
      SqlTrimStartPadded(pre[1..], s);
    }
  }

  lemma {:induction false} SqlTrimEndPadded(s: string, post: string)
    requires forall i :: 0 <= i < |post| ==> IsSqlSpace(post[i])
    requires s != "" && !IsSqlSpace(s[|s| - 1])
    ensures SqlTrimEnd(s + post) == s
    decreases |post|
  {
    if post == "" {
      assert s + post == s;
    } else {
      var shorter := post[..|post| - 1];
      assert (s + post)[..|s + post| - 1] == s + shorter;
      SqlTrimEndPadded(s, shorter);
    }
  }

  /** White space around a text does not change the number it reads as. */
  lemma {:induction false} NumericValuePadded(pre: string, s: string, post: string)
    requires forall i :: 0 <= i < |pre| ==> IsSqlSpace(pre[i])
    requires forall i :: 0 <= i < |post| ==> IsSqlSpace(post[i])
    requires s != "" && !IsSqlSpace(s[0]) && !IsSqlSpace(s[|s| - 1])
    ensures NumericValue(pre + s + post) == NumericValue(s)
  {
    assert pre + s + post == pre + (s + post);
    SqlTrimStartPadded(pre, s + post);
    SqlTrimEndPadded(s, post);
    SqlTrimStartPadded("", s);
    SqlTrimEndPadded(s, "");
    assert "" + s == s && s + "" == s;
    assert SqlTrimEnd(SqlTrimStart(pre + s + post)) == s == SqlTrimEnd(SqlTrimStart(s));
  }

  lemma {:induction false} DigitsValueZeros(d: string, k: nat)
    requires forall i :: 0 <= i < |d| ==> IsDigit(d[i])
    ensures forall i :: 0 <= i < |d + Zeros(k)| ==> IsDigit((d + Zeros(k))[i])
    ensures DigitsValue(d + Zeros(k)) == DigitsValue(d) * Pow10(k)
    decreases k
  {
    if k == 0 {
      assert d + Zeros(k) == d;
    } else {
      var x := d + Zeros(k - 1);
      DigitsValueZeros(d, k - 1);
      assert d + Zeros(k) == x + ['0'];
      assert DigitsValue(x + ['0']) == DigitsValue(x) * 10 by {
        DigitsValueSnoc(x, '0');
      }
      assert DigitsValue(x) * 10 == DigitsValue(d) * Pow10(k) by {
        ScaleByTen(DigitsValue(x), DigitsValue(d), Pow10(k - 1));
      }
    }
  }

  lemma {:induction false} ScaleByTen(x: int, a: int, b: int)
    requires x == a * b
    ensures x * 10 == a * (10 * b)
  {
  }

  lemma {:induction false} DigitPrefixStops(d: string, rest: string)
    requires forall i :: 0 <= i < |d| ==> IsDigit(d[i])
    requires rest != "" && !IsDigit(rest[0])
    ensures DigitPrefixLength(d + rest) == |d|
    decreases |d|
  {
    if d != "" {
      assert (d + rest)[1..] == d[1..] + rest;
      DigitPrefixStops(d[1..], rest);
    }
  }

  /** `digits.fraction` reads as the fraction digits appended to the whole
      digits, scaled down by the fraction's length. */
  lemma {:induction false} ReadNumberWithFraction(d: string, frac: string)
    requires d != "" && forall i :: 0 <= i < |d| ==> IsDigit(d[i])
    requires forall i :: 0 <= i < |frac| ==> IsDigit(frac[i])
    ensures forall i :: 0 <= i < |d + frac| ==> IsDigit((d + frac)[i])
    ensures ReadNumber(d + "." + frac) == Some(Decimal(DigitsValue(d + frac), -|frac|))
  {
    var u := d + "." + frac;
    assert u[0] == d[0];
    assert IsDigit(u[0]);
    assert ReadNumber(u) == ReadUnsigned(u);
    UnsignedWithFraction(d, frac);
  }

  lemma {:induction false} UnsignedWithFraction(d: string, frac: string)
    requires d != "" && forall i :: 0 <= i < |d| ==> IsDigit(d[i])
    requires forall i :: 0 <= i < |frac| ==> IsDigit(frac[i])
    ensures forall i :: 0 <= i < |d + frac| ==> IsDigit((d + frac)[i])
    ensures ReadUnsigned(d + "." + frac) == Some(Decimal(DigitsValue(d + frac), -|frac|))
  {
    var v := "." + frac;
    var u := d + v;
    assert d + "." + frac == u;
    DigitPrefixStops(d, v);
    assert u[..|d|] == d && u[|d|..] == v;
    FractionDigits(d, frac);
  }

  lemma {:induction false} FractionDigits(d: string, frac: string)
    requires d != "" && forall i :: 0 <= i < |d| ==> IsDigit(d[i])
    requires forall i :: 0 <= i < |frac| ==> IsDigit(frac[i])
    ensures forall i :: 0 <= i < |d + frac| ==> IsDigit((d + frac)[i])
    ensures ReadFraction(d, "." + frac) == Some(Decimal(DigitsValue(d + frac), -|frac|))
  {
    assert ("." + frac)[1..] == frac;
    DigitPrefixOfDigits(frac);
    assert frac[..|frac|] == frac && frac[|frac|..] == "";
  }

  /** With no white space at either end, trimming leaves the text as it is. */
  lemma {:induction false} NumericValueUnpadded(s: string)
    requires s != "" && !IsSqlSpace(s[0]) && !IsSqlSpace(s[|s| - 1])
    ensures NumericValue(s) == ReadNumber(s)
  {
    SqlTrimStartPadded("", s);
    SqlTrimEndPadded(s, "");
    assert "" + s == s && s + "" == s;
  }

  /** A text of digits alone reads as that integer. */
  lemma {:induction false} NumericValueOfPlainDigits(text: string)
    ensures text != "" && (forall i :: 0 <= i < |text| ==> IsDigit(text[i])) ==>
              NumericValue(text) == Some(Decimal(DigitsValue(text), 0))
  {
    if text != "" && forall i :: 0 <= i < |text| ==> IsDigit(text[i]) {
      NumericValueOfDigits("", text);
      assert "" + text == text;
    }
  }

  /** Digits followed by a point and zeros read as those digits scaled up
      by the zeros and down by as many places. */
  lemma {:induction false} NumericValueZeroFraction(d: string, k: nat, s: string)
    requires d != "" && forall i :: 0 <= i < |d| ==> IsDigit(d[i])
    requires s == d + "." + Zeros(k)
    ensures NumericValue(s) == Some(Decimal(DigitsValue(d) * Pow10(k), -(k as int)))
  {
    assert NumericValue(s) == ReadNumber(s) by {
      assert s[0] == d[0];
      assert s[|s| - 1] == if k == 0 then '.' else '0';
      NumericValueUnpadded(s);
    }
    assert ReadNumber(s) == Some(Decimal(DigitsValue(d + Zeros(k)), -(k as int))) by {
      ReadNumberWithFraction(d, Zeros(k));
    }
    DigitsValueZeros(d, k);
  }

  /** A decimal whose mantissa is `m` scaled up by the places its exponent
      scales down is the integer `m`. */
  lemma {:induction false} IntegerValueOfScaled(m: int, k: nat)
    ensures IntegerValue(Decimal(m * Pow10(k), -(k as int))) == Some(m)
  {
    if k > 0 {
      MultipleDivides(m, Pow10(k));
    } else {
      assert Pow10(0) == 1;
    }
  }

  /** Digits, a point and fraction digits read as all the digits, as
      many places down as there are fraction digits. */
  lemma {:induction false} NumericValueWithFraction(d: string, frac: string, s: string)
    requires d != "" && forall i :: 0 <= i < |d| ==> IsDigit(d[i])
    requires frac != "" && forall i :: 0 <= i < |frac| ==> IsDigit(frac[i])
    requires s == d + "." + frac
    ensures forall i :: 0 <= i < |d + frac| ==> IsDigit((d + frac)[i])
    ensures NumericValue(s) == Some(Decimal(DigitsValue(d + frac), -|frac|))
  {
    assert NumericValue(s) == ReadNumber(s) by {
      assert s[0] == d[0] && s[|s| - 1] == frac[|frac| - 1];
      NumericValueUnpadded(s);
    }
    ReadNumberWithFraction(d, frac);
  }

  /** Digits followed by `.5` read as ten times their value plus five,
      one place down. */
  lemma {:induction false} NumericValueHalf(d: string, s: string)
    requires d != "" && forall i :: 0 <= i < |d| ==> IsDigit(d[i])
    requires s == d + ".5"
    ensures NumericValue(s) == Some(Decimal(DigitsValue(d) * 10 + 5, -1))
  {
    assert d + "5" == d + ['5'];
    assert DigitsValue(d + "5") == DigitsValue(d) * 10 + 5 by {
      DigitsValueSnoc(d, '5');
    }
    assert NumericValue(s) == Some(Decimal(DigitsValue(d + "5"), -1)) by {
      NumericValueWithFraction(d, "5", s);
    }
  }

  /** One more digit: ten times the value, plus the digit. */
  lemma {:induction false} DigitsValueSnoc(d: string, c: char)
    requires forall i :: 0 <= i < |d| ==> IsDigit(d[i])
    requires IsDigit(c)
    ensures forall i :: 0 <= i < |d + [c]| ==> IsDigit((d + [c])[i])
    ensures DigitsValue(d + [c]) == DigitsValue(d) * 10 + (c as int - '0' as int)
  {
    assert (d + [c])[..|d|] == d;
  }

  /** Zero digits in front do not change a run of digits' value. */
  lemma {:induction false} DigitsValueLeadingZeros(k: nat, d: string)
    requires forall i :: 0 <= i < |d| ==> IsDigit(d[i])
    ensures forall i :: 0 <= i < |Zeros(k) + d| ==> IsDigit((Zeros(k) + d)[i])
    ensures DigitsValue(Zeros(k) + d) == DigitsValue(d)
    decreases |d|
  {
    var x := Zeros(k) + d;
    if d == "" {
      assert x == Zeros(k);
      ZerosValue(k);
    } else {
      var init := d[..|d| - 1];
      DigitsValueLeadingZeros(k, init);
      assert x[..|x| - 1] == Zeros(k) + init;
      assert x[|x| - 1] == d[|d| - 1];
    }
  }

  lemma {:induction false} ZerosValue(k: nat)
    ensures DigitsValue(Zeros(k)) == 0
    decreases k
  {
    if k > 0 {
      ZerosValue(k - 1);
      assert Zeros(k)[..k - 1] == Zeros(k - 1);
    }
  }

  /** An exponent written as `e` and digits reads as those digits. */
  lemma {:induction false} ExponentOfDigits(ek: string)
    requires ek != "" && forall i :: 0 <= i < |ek| ==> IsDigit(ek[i])
    ensures ExponentPart("e" + ek) == Some(DigitsValue(ek) as int)
  {
    var tail := "e" + ek;
    assert tail[0] == 'e' && tail[1..] == ek;
    assert IsDigit(ek[0]);
    DigitPrefixOfDigits(ek);
    assert ek[..|ek|] == ek;
  }

  /** Digits, `e` and digits read as a decimal scaled up by the exponent. */
  lemma {:induction false} NumericValueWithExponent(d: string, ek: string, s: string)
    requires d != "" && forall i :: 0 <= i < |d| ==> IsDigit(d[i])
    requires ek != "" && forall i :: 0 <= i < |ek| ==> IsDigit(ek[i])
    requires s == d + "e" + ek
    ensures NumericValue(s) == Some(Decimal(DigitsValue(d), DigitsValue(ek)))
  {
    assert NumericValue(s) == ReadNumber(s) by {
      assert s[0] == d[0] && s[|s| - 1] == ek[|ek| - 1];
      NumericValueUnpadded(s);
    }
    assert IsDigit(s[0]);
    assert ReadNumber(s) == ReadUnsigned(s);
    UnsignedWithExponent(d, ek, s);
  }

  lemma {:induction false} UnsignedWithExponent(d: string, ek: string, s: string)
    requires d != "" && forall i :: 0 <= i < |d| ==> IsDigit(d[i])
    requires ek != "" && forall i :: 0 <= i < |ek| ==> IsDigit(ek[i])
    requires s == d + "e" + ek
    ensures ReadUnsigned(s) == Some(Decimal(DigitsValue(d), DigitsValue(ek)))
  {
    var v := "e" + ek;
    assert s == d + v;
    DigitPrefixStops(d, v);
    assert s[..|d|] == d && s[|d|..] == v;
    assert ReadFraction(d, v) == Some(Decimal(DigitsValue(d), DigitsValue(ek))) by {
      assert v[0] == 'e';
      assert d + v[..0] == d && v[0..] == v;
      ExponentOfDigits(ek);
    }
  }

  /** A multiple of `p` divides back exactly. */
  lemma {:induction false} MultipleDivides(m: int, p: nat)
    requires p >= 1
    ensures (m * p) % p == 0 && (m * p) / p == m
  {
    var q, r := (m * p) / p, (m * p) % p;
    assert m * p == q * p + r && 0 <= r < p;
    assert (m - q) * p == r;
    ProductBounds(m - q, p);
  }

  lemma {:induction false} ProductBounds(x: int, p: int)
    requires p >= 1
    ensures x >= 1 ==> x * p >= p
    ensures x <= -1 ==> x * p <= -p
  {
  }
}
