/** String helpers the modelled code relies on: `util::split`/`util::join` (declared in
    src/string_utils.hpp, whose bodies are not part of this model; they are modelled
    from their declared default flags, REMOVE_EMPTY | STRIP_SPACES), `atoi`, the
    `formatter() << n` integer rendering, and `std::count` on a string. */
module Text {

  predicate IsSpace(ch: char)
  {
    ch == ' ' || ch == '\t' || ch == '\n' || ch == '\r'
  }

  predicate IsDigit(ch: char)
  {
    '0' <= ch <= '9'
  }

  /** `std::count(s.begin(), s.end(), ch)`. */
  function Count(s: string, ch: char): (n: nat)
    ensures n <= |s|
    ensures n == 0 <==> ch !in s
  {
    if s == [] then 0
    else (if s[0] == ch then 1 else 0) + Count(s[1..], ch)
  }

  /** Drops leading and trailing white space. */
  function Strip(s: string): (r: string)
    ensures |r| <= |s|
    ensures r != [] ==> !IsSpace(r[0]) && !IsSpace(r[|r| - 1])
  {
    if s != [] && IsSpace(s[0]) then Strip(s[1..])
    else if s != [] && IsSpace(s[|s| - 1]) then Strip(s[..|s| - 1])
    else s
  }

  /** A string with no white space at either end strips to itself. */
  predicate Trimmed(s: string)
  {
    s == [] || (!IsSpace(s[0]) && !IsSpace(s[|s| - 1]))
  }

  /** The pieces between the occurrences of `c`, including empty ones: one more piece
      than there are separators. */
  function Pieces(s: string, c: char): (r: seq<string>)
    ensures |r| == Count(s, c) + 1
    ensures forall i :: 0 <= i < |r| ==> c !in r[i]
  {
    if s == [] then [""]
    else
      var rest := Pieces(s[1..], c);
      if s[0] == c then [""] + rest
      else [[s[0]] + rest[0]] + rest[1..]
  }

  /** Strips every piece and drops the ones left empty. */
  function StripAll(pieces: seq<string>): (r: seq<string>)
    ensures forall i :: 0 <= i < |r| ==> r[i] != [] && Trimmed(r[i])
  {
    if pieces == [] then []
    else
      var p := Strip(pieces[0]);
      (if p == [] then [] else [p]) + StripAll(pieces[1..])
  }

  /** `util::split(s, c)` with the default flags: the non-empty, space-stripped pieces. */
  function Split(s: string, c: char): (r: seq<string>)
    ensures forall i :: 0 <= i < |r| ==> r[i] != [] && Trimmed(r[i])
  {
    StripAll(Pieces(s, c))
  }

  /** `util::join(v, c)`: the items with `c` between consecutive ones. */
  function Join(v: seq<string>, c: char): string
  {
    if v == [] then ""
    else if |v| == 1 then v[0]
    else v[0] + [c] + Join(v[1..], c)
  }

  /** Joining one more item appends the separator and the item. */
  lemma {:induction false} JoinSnoc(v: seq<string>, x: string, c: char)
    ensures Join(v + [x], c) == if v == [] then x else Join(v, c) + [c] + x
  {
    if v == [] {
      assert v + [x] == [x];
    } else if |v| == 1 {
      assert v + [x] == [v[0], x];
      assert (v + [x])[1..] == [x];
    } else {
      assert (v + [x])[1..] == v[1..] + [x];
      JoinSnoc(v[1..], x, c);
    }
  }

  /** Two items joined: the first, the separator, the second. */
  lemma JoinPair(a: string, b: string, c: char)
    ensures Join([a, b], c) == a + [c] + b
  {
    assert [a, b][1..] == [b];
  }

  /** An item joined in front of more items: the item, the separator, the rest joined. */
  lemma JoinCons(x: string, v: seq<string>, c: char)
    requires v != []
    ensures Join([x] + v, c) == x + [c] + Join(v, c)
  {
    assert ([x] + v)[1..] == v;
  }

  /** A piece free of the separator runs into the first piece of what follows it. */
  lemma {:induction false} PiecesPrefix(a: string, b: string, c: char)
    requires c !in a
    ensures Pieces(a + b, c) == [a + Pieces(b, c)[0]] + Pieces(b, c)[1..]
  {
    if a == [] {
      var p := Pieces(b, c);
      assert a + b == b && a + p[0] == p[0];
      assert [p[0]] + p[1..] == p;
    } else {
      var s, p := a + b, Pieces(b, c);
      assert s[1..] == a[1..] + b;
      PiecesPrefix(a[1..], b, c);
      var r := Pieces(a[1..] + b, c);
      assert r[0] == a[1..] + p[0] && r[1..] == p[1..];
      assert s[0] == a[0] != c;
      assert Pieces(s, c) == [[a[0]] + r[0]] + r[1..];
      ConsAppend(a, p[0]);
    }
  }

  lemma ConsAppend<T>(u: seq<T>, v: seq<T>)
    requires u != []
    ensures [u[0]] + (u[1..] + v) == u + v
  {
    assert u == [u[0]] + u[1..];
  }

  /** Joining separator-free items and cutting at the separator gives the items back. */
  lemma {:induction false} PiecesOfJoin(v: seq<string>, c: char)
    requires v != []
    requires forall i :: 0 <= i < |v| ==> c !in v[i]
    ensures Pieces(Join(v, c), c) == v
  {
    if |v| == 1 {
      PiecesPrefix(v[0], "", c);
      assert v[0] + "" == v[0] && Pieces("", c) == [""];
      assert v == [v[0]];
    } else {
      var rest := Join(v[1..], c);
      PiecesOfJoin(v[1..], c);
      assert Join(v, c) == v[0] + ([c] + rest);
      PiecesPrefix(v[0], [c] + rest, c);
      assert ([c] + rest)[1..] == rest;
      assert Pieces([c] + rest, c) == [""] + Pieces(rest, c);
      assert v[0] + "" == v[0];
      assert v == [v[0]] + v[1..];
    }
  }

  lemma {:induction false} StripAllKeeps(v: seq<string>)
    requires forall i :: 0 <= i < |v| ==> v[i] != [] && Trimmed(v[i])
    ensures StripAll(v) == v
  {
    if v != [] {
      StripAllKeeps(v[1..]);
    }
  }

  /** `split(join(v, c), c) == v` for non-empty, space-trimmed items free of `c`. */
  lemma SplitJoin(v: seq<string>, c: char)
    requires forall i :: 0 <= i < |v| ==> v[i] != [] && Trimmed(v[i]) && c !in v[i]
    ensures Split(Join(v, c), c) == v
  {
    if v == [] {
      assert Pieces("", c) == [""];
      assert Strip("") == "";
      assert StripAll([""]) == [] + StripAll([]);
    } else {
      PiecesOfJoin(v, c);
      StripAllKeeps(v);
    }
  }

  function DigitChar(d: nat): char
    requires d < 10
  {
    ['0', '1', '2', '3', '4', '5', '6', '7', '8', '9'][d]
  }

  /** The decimal digits of `n`, most significant first. */
  function NatToString(n: nat): (s: string)
    ensures s != [] && forall i :: 0 <= i < |s| ==> IsDigit(s[i])
  {
    if n < 10 then [DigitChar(n)] else NatToString(n / 10) + [DigitChar(n % 10)]
  }

  /** `formatter() << n`: the decimal rendering of `n`, with a leading '-' when negative. */
  function IntToString(n: int): (s: string)
    ensures s != [] && Trimmed(s) && ',' !in s && ' ' !in s
  {
    var digits := if n < 0 then NatToString(-n) else NatToString(n);
    assert forall i :: 0 <= i < |digits| ==> IsDigit(digits[i]);
    if n < 0 then "-" + digits else digits
  }

  /** The value of a string of decimal digits. */
  function DigitsValue(s: string): nat
    requires forall i :: 0 <= i < |s| ==> IsDigit(s[i])
  {
    if s == [] then 0
    else
      assert IsDigit(s[|s| - 1]);
      10 * DigitsValue(s[..|s| - 1]) + (s[|s| - 1] as int - '0' as int)
  }

  /** The longest prefix made of decimal digits. */
  function LeadingDigits(s: string): (r: string)
    ensures |r| <= |s| && r == s[..|r|]
    ensures forall i :: 0 <= i < |r| ==> IsDigit(r[i])
  {
    if s != [] && IsDigit(s[0]) then [s[0]] + LeadingDigits(s[1..]) else []
  }

  /** C `atoi`: leading white space, an optional sign, then as many digits as follow;
      0 when there are none. */
  function Atoi(s: string): int
  {
    if s != [] && IsSpace(s[0]) then Atoi(s[1..])
    else if s != [] && s[0] == '-' then 0 - DigitsValue(LeadingDigits(s[1..]))
    else if s != [] && s[0] == '+' then DigitsValue(LeadingDigits(s[1..]))
    else DigitsValue(LeadingDigits(s))
  }

  lemma {:induction false} LeadingDigitsAll(s: string)
    requires forall i :: 0 <= i < |s| ==> IsDigit(s[i])
    ensures LeadingDigits(s) == s
  {
    if s != [] {
      LeadingDigitsAll(s[1..]);
    }
  }

  lemma {:induction false} DigitsValueOfNat(n: nat)
    ensures DigitsValue(NatToString(n)) == n
  {
    if n >= 10 {
      DigitsValueOfNat(n / 10);
      var s := NatToString(n);
      assert s[..|s| - 1] == NatToString(n / 10);
    }
  }

  /** `atoi` reads a non-empty run of digits as its value. */
  lemma AtoiDigits(digits: string)
    requires digits != [] && forall i :: 0 <= i < |digits| ==> IsDigit(digits[i])
    ensures Atoi(digits) == DigitsValue(digits)
  {
    LeadingDigitsAll(digits);
    assert IsDigit(digits[0]);
  }

  /** `atoi` reads a minus sign and a run of digits as the negated value. */
  lemma AtoiNegative(digits: string)
    requires forall i :: 0 <= i < |digits| ==> IsDigit(digits[i])
    ensures Atoi("-" + digits) == 0 - DigitsValue(digits)
  {
    LeadingDigitsAll(digits);
    assert ("-" + digits)[1..] == digits;
  }

  /** `atoi` reads back what the formatter wrote. */
  lemma AtoiIntToString(n: int)
    ensures Atoi(IntToString(n)) == n
  {
    if n < 0 {
      var d := NatToString(-n);
      assert IntToString(n) == "-" + d;
      DigitsValueOfNat(-n);
      AtoiNegative(d);
      calc {
        Atoi(IntToString(n));
        Atoi("-" + d);
        0 - DigitsValue(d);
      }
    } else {
      var d := NatToString(n);
      assert IntToString(n) == d;
      DigitsValueOfNat(n);
      AtoiDigits(d);
    }
  }

  /** Lexicographic order on strings, as `std::string`'s `operator<`. */
  predicate Less(a: string, b: string)
  {
    if a == [] then b != []
    else if b == [] then false
    else a[0] < b[0] || (a[0] == b[0] && Less(a[1..], b[1..]))
  }

  lemma {:induction false} LessIrreflexive(a: string)
    ensures !Less(a, a)
  {
    if a != [] {
      LessIrreflexive(a[1..]);
    }
  }

  lemma {:induction false} LessTransitive(a: string, b: string, c: string)
    requires Less(a, b) && Less(b, c)
    ensures Less(a, c)
  {
    if a != [] && b != [] && c != [] && a[0] == b[0] == c[0] {
      LessTransitive(a[1..], b[1..], c[1..]);
    }
  }

  lemma {:induction false} LessTotal(a: string, b: string)
    requires a != b
    ensures Less(a, b) || Less(b, a)
  {
    if a != [] && b != [] && a[0] == b[0] {
      assert a == [a[0]] + a[1..] && b == [b[0]] + b[1..];
      LessTotal(a[1..], b[1..]);
    }
  }

  /** The least element of a non-empty set of strings, found by one pass over the set. */
  method Smallest(s: set<string>) returns (m: string)
    requires s != {}
    ensures m in s
    ensures forall k :: k in s && k != m ==> Less(m, k)
  {
    m :| m in s;
    var rest := s - {m};
    while rest != {}
      invariant rest <= s && m in s && m !in rest
      invariant forall k :: k in s && k !in rest && k != m ==> Less(m, k)
      decreases rest
    {
      var k :| k in rest;
      if Less(k, m) {
        forall j | j in s && j !in rest && j != k
          ensures Less(k, j)
        {
          if j != m {
            LessTransitive(k, m, j);
          }
        }
        m := k;
      } else {
        LessTotal(k, m);
      }
      rest := rest - {k};
    }
  }
}
