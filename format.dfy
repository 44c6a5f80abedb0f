/**
  `format_money`: an amount of cents written with two decimals and its whole
  part in groups of three digits separated by single spaces, as Python's
  `f"{value:,.2f}"` with every comma turned into a space.
 */
module Format {
  import opened Wrappers
  import opened Money
  import opened Forms

  predicate IsDigit(c: char)
  {
    '0' <= c <= '9'
  }

  predicate AllDigits(s: string)
  {
    forall i :: 0 <= i < |s| ==> IsDigit(s[i])
  }

  function DigitChar(d: int): (c: char)
    requires 0 <= d < 10
    ensures IsDigit(c) && c as int - '0' as int == d
  {
    ('0' as int + d) as char
  }

  /** The decimal numeral of `n`, without leading zeros ("0" for zero). */
  function Digits(n: nat): string
  {
    if n < 10 then [DigitChar(n)] else Digits(n / 10) + [DigitChar(n % 10)]
  }

  /** The number a string of digits denotes. */
  function DigitsValue(s: string): nat
    requires AllDigits(s)
  {
    if s == [] then 0
    else DigitsValue(s[..|s| - 1]) * 10 + (s[|s| - 1] as int - '0' as int)
  }

  /** `Digits` writes a numeral denoting `n`, with no leading zero unless it is "0". */
  lemma {:induction false} DigitsSpec(n: nat)
    ensures var s := Digits(n);
      && 1 <= |s|
      && AllDigits(s)
      && (n > 0 ==> s[0] != '0')
      && DigitsValue(s) == n
  {
    if n >= 10 {
      DigitsSpec(n / 10);
      var s := Digits(n);
      assert s[..|s| - 1] == Digits(n / 10);
    }
  }

  /** The digits of `s` in groups of three from the right, separated by single spaces. */
  function Group(s: string): string
  {
    if |s| <= 3 then s else Group(s[..|s| - 3]) + [' '] + s[|s| - 3..]
  }

  /** Splitting off the last group of three. */
  lemma GroupUnfold(s: string)
    requires |s| > 3
    ensures Group(s) == Group(s[..|s| - 3]) + [' '] + s[|s| - 3..]
  {
  }

  /**
    Grouping adds one space per full group of three after the leading one, so
    the grouped length is never a multiple of four.
   */
  lemma {:induction false} GroupLength(s: string)
    requires 1 <= |s|
    ensures |Group(s)| == |s| + (|s| - 1) / 3
    ensures |Group(s)| % 4 != 0
  {
    if |s| > 3 {
      GroupLength(s[..|s| - 3]);
      GroupUnfold(s);
      assert (|s| - 1) / 3 == (|s| - 4) / 3 + 1;
    }
    var q, r := (|s| - 1) / 3, (|s| - 1) % 3;
    assert |Group(s)| == 4 * q + r + 1;
  }

  /** A grouped text's characters from the last space on are the last three of the numeral. */
  lemma GroupTail(s: string, i: int)
    requires |s| > 3
    requires |Group(s[..|s| - 3])| <= i < |Group(s)|
    ensures var g := Group(s[..|s| - 3]);
      Group(s)[i] == if i == |g| then ' ' else s[|s| - 3 + (i - |g| - 1)]
  {
    GroupUnfold(s);
  }

  /** Position i of a grouped numeral holds a space exactly when it is a multiple of four from the end. */
  lemma {:induction false} GroupSpaceAt(s: string, i: int)
    requires 1 <= |s| && ' ' !in s
    requires 0 <= i < |Group(s)|
    ensures Group(s)[i] == ' ' <==> (|Group(s)| - i) % 4 == 0
  {
    if |s| <= 3 {
      assert Group(s) == s;
      assert s[i] in s;
      assert 1 <= |s| - i <= 3;
    } else {
      var head := s[..|s| - 3];
      var g := Group(head);
      GroupUnfold(s);
      if i < |g| {
        assert ' ' !in head by {
          forall j | 0 <= j < |head| ensures head[j] != ' ' { assert head[j] == s[j]; }
        }
        GroupSpaceAt(head, i);
        assert Group(s)[i] == g[i];
        assert |Group(s)| - i == |g| - i + 4;
      } else {
        GroupSpaceInTail(s, i);
      }
    }
  }

  /** The same, for a position in the last group of three or the space before it. */
  lemma {:induction false} GroupSpaceInTail(s: string, i: int)
    requires |s| > 3 && ' ' !in s
    requires |Group(s[..|s| - 3])| <= i < |Group(s)|
    ensures Group(s)[i] == ' ' <==> (|Group(s)| - i) % 4 == 0
  {
    var g := Group(s[..|s| - 3]);
    GroupUnfold(s);
    GroupTail(s, i);
    var d := |Group(s)| - i;
    assert 1 <= d <= 4;
    if i > |g| {
      assert s[|s| - 3 + (i - |g| - 1)] in s;
    }
  }

  /**
    Grouping a numeral: a position holds a space exactly when it is a multiple
    of four from the end, so every group has three digits except the leading
    one, which has one to three.
   */
  lemma {:induction false} GroupSpaces(s: string)
    requires 1 <= |s| && ' ' !in s
    ensures var r := Group(s);
      && |r| % 4 != 0
      && (forall i :: 0 <= i < |r| ==> (r[i] == ' ' <==> (|r| - i) % 4 == 0))
  {
    var r := Group(s);
    GroupLength(s);
    forall i | 0 <= i < |r|
      ensures r[i] == ' ' <==> (|r| - i) % 4 == 0
    {
      GroupSpaceAt(s, i);
    }
  }

  /** Taking the spaces out of a grouped numeral gives the numeral back. */
  lemma {:induction false} GroupUngroup(s: string)
    requires ' ' !in s
    ensures RemoveSpaces(Group(s)) == s
  {
    if |s| <= 3 {
      RemoveSpacesKeeps(s);
    } else {
      var head, tail := s[..|s| - 3], s[|s| - 3..];
      assert ' ' !in head by {
        forall i | 0 <= i < |head| ensures head[i] != ' ' { assert head[i] == s[i]; }
      }
      assert ' ' !in tail by {
        forall i | 0 <= i < |tail| ensures tail[i] != ' ' { assert tail[i] == s[|s| - 3 + i]; }
      }
      GroupUngroup(head);
      GroupUnfold(s);
      var g := Group(head);
      RemoveSpacesAppend(g + [' '], tail);
      RemoveSpacesAppend(g, [' ']);
      RemoveSpacesKeeps(tail);
      assert RemoveSpaces([' ']) == [];
      assert s == head + tail;
    }
  }

  /** The two digits of the cents, with a leading zero. */
  function TwoDigits(n: int): string
    requires 0 <= n < 100
  {
    [DigitChar(n / 10), DigitChar(n % 10)]
  }

  /** `format_money` on an amount of cents; a negative amount starts with "-". */
  function FormatMoney(cents: int): string
  {
    var a := Abs(cents);
    (if cents < 0 then "-" else "") + Group(Digits(a / 100)) + "." + TwoDigits(a % 100)
  }

  /**
    Reads back an amount written as `format_money` writes it: an optional
    "-", a whole part whose spaces are ignored, a point and exactly two digits.
   */
  function ReadMoney(s: string): Option<int>
  {
    var negative := |s| > 0 && s[0] == '-';
    var body := if negative then s[1..] else s;
    if |body| < 4 || body[|body| - 3] != '.' then None
    else
      var whole := RemoveSpaces(body[..|body| - 3]);
      var fraction := body[|body| - 2..];
      if whole == [] || !AllDigits(whole) || !AllDigits(fraction) then None
      else
        var a := DigitsValue(whole) * 100 + DigitsValue(fraction);
        Some(if negative then -a else a)
  }

  /** The pieces `format_money` puts together: the sign, the grouped whole part, the point and the cents. */
  lemma {:induction false} FormatMoneyPieces(cents: int)
    ensures var r := FormatMoney(cents);
      var sign := if cents < 0 then 1 else 0;
      var g := Group(Digits(Abs(cents) / 100));
      && |r| == sign + |g| + 3
      && (cents < 0 ==> r[0] == '-')
      && r[sign..|r| - 3] == g
      && r[|r| - 3] == '.'
      && r[|r| - 2..] == TwoDigits(Abs(cents) % 100)
  {
    var a := Abs(cents);
    var g := Group(Digits(a / 100));
    var two := TwoDigits(a % 100);
    var r := FormatMoney(cents);
    var sign := if cents < 0 then 1 else 0;
    var prefix := if cents < 0 then "-" else "";
    assert r == prefix + g + "." + two;
    assert r[sign..|r| - 3] == g;
    assert r[|r| - 2..] == two;
  }

  lemma TwoDigitsValue(n: int)
    requires 0 <= n < 100
    ensures AllDigits(TwoDigits(n)) && DigitsValue(TwoDigits(n)) == n
  {
    var two := TwoDigits(n);
    var first := two[..1];
    assert first == [DigitChar(n / 10)];
    assert first[..0] == [];
    assert DigitsValue(first) == n / 10;
    assert DigitsValue(two) == DigitsValue(first) * 10 + n % 10;
  }

  /**
    The layout `format_money` promises: the text ends in a point and two
    digits giving the cents, and before them comes the whole part in groups of
    three digits separated by single spaces, the leading group having one to
    three digits and no leading zero unless the whole part is 0.
   */
  lemma {:induction false} FormatMoneyShape(cents: int)
    ensures var r := FormatMoney(cents);
      var sign := if cents < 0 then 1 else 0;
      var whole := r[sign..|r| - 3];
      && |r| >= sign + 4
      && (cents < 0 <==> r[0] == '-')
      && r[|r| - 3] == '.'
      && AllDigits(r[|r| - 2..]) && DigitsValue(r[|r| - 2..]) == Abs(cents) % 100
      && |whole| % 4 != 0
      && (forall i :: 0 <= i < |whole| ==> (whole[i] == ' ' <==> (|whole| - i) % 4 == 0))
      && (forall i :: 0 <= i < |whole| ==> (whole[i] != ' ' ==> IsDigit(whole[i])))
      && (Abs(cents) >= 100 ==> whole[0] != '0')
      && RemoveSpaces(whole) == Digits(Abs(cents) / 100)
  {
    var a := Abs(cents);
    var digits := Digits(a / 100);
    DigitsSpec(a / 100);
    assert ' ' !in digits by {
      forall i | 0 <= i < |digits| ensures digits[i] != ' ' { assert IsDigit(digits[i]); }
    }
    GroupSpaces(digits);
    GroupLength(digits);
    GroupUngroup(digits);
    GroupDigits(digits);
    GroupFirst(digits);
    FormatMoneyPieces(cents);
    TwoDigitsValue(a % 100);
    if cents >= 0 {
      assert FormatMoney(cents)[0] == Group(digits)[0];
      assert IsDigit(digits[0]);
    }
  }

  /** Grouping inserts only spaces: every other character is one of the numeral's. */
  lemma {:induction false} GroupDigits(s: string)
    requires AllDigits(s)
    ensures var r := Group(s); forall i :: 0 <= i < |r| ==> (r[i] != ' ' ==> IsDigit(r[i]))
  {
    if |s| > 3 {
      var head := s[..|s| - 3];
      GroupDigits(head);
      GroupUnfold(s);
      var g := Group(head);
      var r := Group(s);
      forall i | 0 <= i < |r| && r[i] != ' '
        ensures IsDigit(r[i])
      {
        if i < |g| {
          assert r[i] == g[i];
        } else {
          assert r[i] == s[|s| - 3 + (i - |g| - 1)];
        }
      }
    }
  }

  /** Grouping keeps the first digit in front. */
  lemma {:induction false} GroupFirst(s: string)
    requires |s| >= 1
    ensures |Group(s)| >= 1 && Group(s)[0] == s[0]
  {
    if |s| > 3 {
      GroupFirst(s[..|s| - 3]);
      GroupUnfold(s);
    }
  }

  /** Reading a formatted amount gives back the amount. */
  lemma {:induction false} FormatMoneyRoundTrip(cents: int)
    ensures ReadMoney(FormatMoney(cents)) == Some(cents)
  {
    var a := Abs(cents);
    var r := FormatMoney(cents);
    FormatMoneyShape(cents);
    DigitsSpec(a / 100);
    var sign := if cents < 0 then 1 else 0;
    var body := r[sign..];
    assert body[..|body| - 3] == r[sign..|r| - 3];
    assert body[|body| - 2..] == r[|r| - 2..];
    assert body[|body| - 3] == r[|r| - 3];
    if cents >= 0 {
      assert r[0] != '-';
      assert body == r;
    }
  }
}
