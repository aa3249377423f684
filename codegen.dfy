/** Short-code generation: the rolling hash of a URL and the five base-62
    symbols taken from it, least-significant digit first. */
module CodeGen {

  /** Go's int64, the type the hash and the digit loop compute in. Using it in
      the methods makes the verifier check that no step overflows. */
  newtype int64 = x: int | -0x8000_0000_0000_0000 <= x < 0x8000_0000_0000_0000

  const ShortUrlLength: nat := 5
  /** The 62-symbol alphabet `letters`, written in three pieces; the value is
      the source's constant, lower case, upper case, digits in that order. */
  const Letters: string := "abcdefghijklmnopqrstuvwxyz" + "ABCDEFGHIJKLMNOPQRSTUVWXYZ" + "0123456789"
  const Radix: nat := 62
  const HashBase: nat := 31
  /** 1 << 31 */
  const HashModulus: nat := 0x8000_0000
  const FrontendPrefix: string := "http://localhost:8080/"

  function Pow(b: nat, e: nat): (p: nat)
    ensures b > 0 ==> p > 0
  {
    if e == 0 then 1 else b * Pow(b, e - 1)
  }

  // ---------------------------------------------------------------- alphabet

  /** The symbol at position i of the alphabet, by its code point. */
  function LetterAt(i: int): char
    requires 0 <= i < 62
  {
    if i < 26 then ('a' as int + i) as char
    else if i < 52 then ('A' as int + (i - 26)) as char
    else ('0' as int + (i - 52)) as char
  }

  /** Position of an alphabet symbol; 62 for any other character. */
  function IndexOf(c: char): (i: nat)
    ensures i <= 62
  {
    if 'a' <= c <= 'z' then c as int - 'a' as int
    else if 'A' <= c <= 'Z' then c as int - 'A' as int + 26
    else if '0' <= c <= '9' then c as int - '0' as int + 52
    else 62
  }

  /** The constant agrees with LetterAt everywhere. */
  lemma LettersMatchRanges(i: int)
    requires 0 <= i < 62
    ensures |Letters| == Radix && Letters[i] == LetterAt(i)
  {
  }

  /** Every alphabet symbol is a letter or digit: in particular neither the
      path separator '/' nor a space, and its position is recovered by IndexOf. */
  lemma LetterFacts(i: int)
    requires 0 <= i < 62
    ensures |Letters| == Radix
    ensures Letters[i] != '/' && Letters[i] != ' '
    ensures IndexOf(Letters[i]) == i
  {
    LettersMatchRanges(i);
  }

  // ---------------------------------------------------------------- hashing

  /** rollingHash: h := (h * 31 + ch) mod 2^31 for each code point, left to right. */
  function Hash(s: string): (h: nat)
    ensures h < HashModulus
  {
    if s == [] then 0 else (Hash(s[..|s| - 1]) * HashBase + s[|s| - 1] as int) % HashModulus
  }

  /** Reference definition: the unreduced polynomial sum of s[i] * 31^(n-1-i). */
  function Poly(s: string): nat
  {
    if s == [] then 0 else s[0] as int * Pow(HashBase, |s| - 1) + Poly(s[1..])
  }

  lemma {:induction false} PolySnoc(s: string, c: char)
    ensures Poly(s + [c]) == Poly(s) * HashBase + c as int
  {
    if s == [] {
      assert s + [c] == [c];
    } else {
      assert (s + [c])[1..] == s[1..] + [c];
      PolySnoc(s[1..], c);
      var p := Pow(HashBase, |s| - 1);
      assert Pow(HashBase, |s|) == HashBase * p;
      calc {
        Poly(s + [c]);
        s[0] as int * (HashBase * p) + Poly(s[1..] + [c]);
        s[0] as int * (HashBase * p) + Poly(s[1..]) * HashBase + c as int;
        (s[0] as int * p + Poly(s[1..])) * HashBase + c as int;
      }
    }
  }

  /** Reducing x modulo m before a further multiply-add does not change the
      result modulo m; this is why the hash may reduce at every step. */
  lemma ModStep(x: nat, k: nat, c: nat, m: nat)
    requires m > 0
    ensures ((x % m) * k + c) % m == (x * k + c) % m
  {
    var q, r := x / m, x % m;
    assert x * k + c == (q * k) * m + (r * k + c);
    DivModUnique(x * k + c, m, q * k + (r * k + c) / m, (r * k + c) % m);
  }

  lemma DivModUnique(a: int, d: int, q: int, r: int)
    requires d > 0 && a == d * q + r && 0 <= r < d
    ensures a / d == q && a % d == r
  {
    var q', r' := a / d, a % d;
    var k := q - q';
    assert d * k == r' - r;
    if k > 0 {
      MulAtLeast(d, k);
    } else if k < 0 {
      MulAtLeast(d, -k);
    }
  }

  lemma MulAtLeast(d: int, k: int)
    requires d > 0 && k > 0
    ensures d * k >= d && d * -k <= -d
    decreases k
  {
    assert d * k == d * (k - 1) + d;
    assert d * -k == -(d * k);
    if k > 1 {
      MulAtLeast(d, k - 1);
    }
  }

  lemma MulNonneg(x: int, y: int)
    requires x >= 0 && y >= 0
    ensures x * y >= 0
  {
  }

  /** The rolling hash is the polynomial value of the code points modulo 2^31. */
  lemma {:induction false} HashIsPolynomial(s: string)
    ensures Hash(s) == Poly(s) % HashModulus
  {
    if s != [] {
      var p, c := s[..|s| - 1], s[|s| - 1];
      assert s == p + [c];
      HashIsPolynomial(p);
      PolySnoc(p, c);
      ModStep(Poly(p), HashBase, c as int, HashModulus);
    }
  }

  /** Appending one code point performs exactly one step of the Go loop. */
  lemma HashSnoc(s: string, c: char)
    ensures Hash(s + [c]) == (Hash(s) * HashBase + c as int) % HashModulus
  {
  }

  /** rollingHash (main.go), loop for loop in Go's int64. */
  method RollingHash(s: string) returns (h: int64)
    ensures h as int == Hash(s)
  {
    h := 0;
    for i := 0 to |s|
      invariant h as int == Hash(s[..i])
    {
      assert s[..i + 1] == s[..i] + [s[i]];
      HashSnoc(s[..i], s[i]);
      h := (h * HashBase as int64 + s[i] as int64) % HashModulus as int64;
    }
    assert s[..|s|] == s;
  }

  // ---------------------------------------------------------------- the code

  /** Symbol k of the code for hash h: base-62 digit k of h, counted from the
      least significant. */
  function DigitAt(h: nat, k: nat): char
  {
    LettersMatchRanges((h / Pow(Radix, k)) % Radix);
    Letters[(h / Pow(Radix, k)) % Radix]
  }

  /** The first n base-62 digits of h, least significant first. */
  function Digits(h: nat, n: nat): string
  {
    seq(n, k requires 0 <= k < n => DigitAt(h, k))
  }

  /** The five-symbol code of a URL. */
  function Code(url: string): string
  {
    Digits(Hash(url), ShortUrlLength)
  }

  /** shortenUrl: the canonical short URL of a URL. */
  function ShortUrl(url: string): string
  {
    FrontendPrefix + Code(url)
  }

  lemma DivDiv(a: nat, b: nat, c: nat)
    requires b > 0 && c > 0
    ensures a / (b * c) == (a / b) / c
    ensures a % (b * c) == a % b + b * ((a / b) % c)
  {
    var q, r := a / b, a % b;
    var q2, r2 := q / c, q % c;
    assert b * q == b * (c * q2) + b * r2;
    assert b * (c * q2) == (b * c) * q2;
    assert b * c == b * r2 + b + b * (c - 1 - r2);
    MulNonneg(b, c - 1 - r2);
    DivModUnique(a, b * c, q2, b * r2 + r);
  }

  /** Taking a digit after one division by 62 is taking the next digit. */
  lemma DigitShift(h: nat, k: nat)
    ensures DigitAt(h, k + 1) == DigitAt(h / Radix, k)
  {
    DivDiv(h, Radix, Pow(Radix, k));
  }

  /** shortenUrl (main.go), loop for loop: five times take hashCode % 62 as
      the next symbol and divide hashCode by 62. */
  method ShortenUrl(url: string) returns (shortUrl: string)
    ensures shortUrl == ShortUrl(url)
  {
    var hashCode := RollingHash(url);
    ghost var h := hashCode as int;
    var code := "";
    for i := 0 to ShortUrlLength
      invariant 0 <= hashCode as int == h / Pow(Radix, i)
      invariant code == Digits(h, i)
    {
      var idx := hashCode % |Letters| as int64;
      LettersMatchRanges(idx as int);
      code := code + [Letters[idx]];
      DivDiv(h, Pow(Radix, i), Radix);
      assert Pow(Radix, i + 1) == Pow(Radix, i) * Radix;
      hashCode := hashCode / |Letters| as int64;
    }
    shortUrl := FrontendPrefix + code;
  }

  // ---------------------------------------------------------------- properties

  /** The code has five symbols, all from the alphabet, none of them '/' or ' '. */
  lemma CodeShape(url: string)
    ensures |Code(url)| == ShortUrlLength
    ensures forall k | 0 <= k < ShortUrlLength :: Code(url)[k] in Letters
    ensures '/' !in Code(url) && ' ' !in Code(url)
  {
    var code := Code(url);
    forall k | 0 <= k < ShortUrlLength
      ensures code[k] in Letters && code[k] != '/' && code[k] != ' '
    {
      var i := (Hash(url) / Pow(Radix, k)) % Radix;
      LetterFacts(i);
    }
  }

  /** The empty URL hashes to 0 and gets the code "aaaaa". */
  lemma EmptyUrl()
    ensures Hash("") == 0
    ensures Code("") == "aaaaa"
    ensures ShortUrl("") == "http://localhost:8080/aaaaa"
  {
    forall k | 0 <= k < ShortUrlLength ensures Code("")[k] == 'a' {
      assert 0 / Pow(Radix, k) == 0;
      LettersMatchRanges(0);
    }
  }

  /** Reading a code back as a base-62 number, least significant symbol first. */
  function Value(code: string): nat
  {
    if code == [] then 0 else IndexOf(code[0]) + Radix * Value(code[1..])
  }

  /** Round trip: the digits read back give the hash modulo 62^n. */
  lemma {:induction false} DigitsValue(h: nat, n: nat)
    ensures Value(Digits(h, n)) == h % Pow(Radix, n)
  {
    if n > 0 {
      var d := Digits(h, n);
      var low, rest := IndexOf(d[0]), Value(d[1..]);
      DigitsSplit(h, n);
      DigitsValue(h / Radix, n - 1);
      assert Value(d) == low + Radix * rest;
      DivDiv(h, Radix, Pow(Radix, n - 1));
    }
  }

  /** The first digit of h is h % 62; the others are the digits of h / 62. */
  lemma DigitsSplit(h: nat, n: nat)
    requires n > 0
    ensures IndexOf(Digits(h, n)[0]) == h % Radix
    ensures Digits(h, n)[1..] == Digits(h / Radix, n - 1)
  {
    var d, rest := Digits(h, n), Digits(h / Radix, n - 1);
    forall k | 0 <= k < n - 1 ensures d[1..][k] == rest[k] {
      DigitShift(h, k);
    }
    assert h / Pow(Radix, 0) == h;
    LetterFacts(h % Radix);
  }

  predicate InAlphabet(code: string)
  {
    forall k | 0 <= k < |code| :: IndexOf(code[k]) < Radix
  }

  /** Reading back is injective on strings of alphabet symbols of equal length. */
  lemma {:induction false} ValueInjective(c1: string, c2: string)
    requires |c1| == |c2| && InAlphabet(c1) && InAlphabet(c2)
    requires Value(c1) == Value(c2)
    ensures c1 == c2
  {
    if c1 != [] {
      DivModUnique(Value(c1), Radix, Value(c1[1..]), IndexOf(c1[0]));
      DivModUnique(Value(c2), Radix, Value(c2[1..]), IndexOf(c2[0]));
      assert InAlphabet(c1[1..]) && InAlphabet(c2[1..]) by {
        forall k | 0 <= k < |c1| - 1 ensures IndexOf(c1[1..][k]) < Radix && IndexOf(c2[1..][k]) < Radix {
          assert c1[1..][k] == c1[k + 1] && c2[1..][k] == c2[k + 1];
        }
      }
      ValueInjective(c1[1..], c2[1..]);
      IndexOfInjective(c1[0], c2[0]);
      assert c1 == [c1[0]] + c1[1..] && c2 == [c2[0]] + c2[1..];
    }
  }

  lemma IndexOfInjective(a: char, b: char)
    requires IndexOf(a) < Radix && IndexOf(a) == IndexOf(b)
    ensures a == b
  {
  }

  lemma DigitsInAlphabet(h: nat, n: nat)
    ensures InAlphabet(Digits(h, n))
  {
    forall k | 0 <= k < n ensures IndexOf(Digits(h, n)[k]) < Radix {
      LetterFacts((h / Pow(Radix, k)) % Radix);
    }
  }

  /** Two URLs get the same code exactly when their hashes agree modulo
      62^5; no collision is detected (the later write wins in the store). */
  lemma {:induction false} SameCodeIff(u1: string, u2: string)
    ensures Code(u1) == Code(u2) <==> Hash(u1) % Pow(Radix, ShortUrlLength) == Hash(u2) % Pow(Radix, ShortUrlLength)
  {
    var h1, h2 := Hash(u1), Hash(u2);
    DigitsValue(h1, ShortUrlLength);
    DigitsValue(h2, ShortUrlLength);
    if h1 % Pow(Radix, ShortUrlLength) == h2 % Pow(Radix, ShortUrlLength) {
      DigitsInAlphabet(h1, ShortUrlLength);
      DigitsInAlphabet(h2, ShortUrlLength);
      ValueInjective(Digits(h1, ShortUrlLength), Digits(h2, ShortUrlLength));
    }
  }
}
