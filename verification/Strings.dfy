/** The few string functions of Python the repository relies on. */
module Strings {

  /** `str(n)` for a non-negative integer. */
  function Decimal(n: nat): (r: string)
    ensures r != ""
  {
    if n < 10 then [Digit(n)] else Decimal(n / 10) + [Digit(n % 10)]
  }

  predicate AllDigits(s: string) {
    forall i :: 0 <= i < |s| ==> '0' <= s[i] <= '9'
  }

  /** Digits only, and no superfluous leading zero. */
  lemma {:induction false} DecimalForm(n: nat)
    ensures AllDigits(Decimal(n))
    ensures |Decimal(n)| > 1 || n > 0 ==> Decimal(n)[0] != '0'
  {
    if n >= 10 {
      DecimalForm(n / 10);
    }
  }

  function Digit(d: nat): (c: char)
    requires d < 10
    ensures '0' <= c <= '9'
  {
    '0' + d as char
  }

  /** `int(s)` for a string of digits. */
  function FromDecimal(s: string): nat
    requires AllDigits(s)
  {
    if s == "" then 0
    else 10 * FromDecimal(s[..|s| - 1]) + (s[|s| - 1] as nat - '0' as nat)
  }

  lemma {:induction false} FromDecimalOfDecimal(n: nat)
    ensures AllDigits(Decimal(n)) && FromDecimal(Decimal(n)) == n
  {
    DecimalForm(n);
    if n >= 10 {
      FromDecimalOfDecimal(n / 10);
      assert Decimal(n)[..|Decimal(n)| - 1] == Decimal(n / 10);
    } else {
      assert Decimal(n)[..0] == "";
    }
  }

  /** Digits without a superfluous leading zero are exactly the texts of the natural numbers. */
  lemma {:induction false} DecimalOfFromDecimal(s: string)
    requires s != "" && AllDigits(s)
    requires |s| > 1 ==> s[0] != '0'
    ensures Decimal(FromDecimal(s)) == s
    ensures s[0] != '0' ==> FromDecimal(s) > 0
  {
    var n := |s| - 1;
    if n > 0 {
      DecimalOfFromDecimal(s[..n]);
      var d := s[n] as nat - '0' as nat;
      AppendDigit(FromDecimal(s[..n]), d);
      assert s == s[..n] + [Digit(d)];
    } else {
      assert FromDecimal(s[..0]) == 0;
      assert s == [s[0]];
    }
  }

  lemma {:induction false} AppendDigit(n: nat, d: nat)
    requires n > 0 && d < 10
    ensures Decimal(10 * n + d) == Decimal(n) + [Digit(d)]
  {
    var m := 10 * n + d;
    assert m / 10 == n && m % 10 == d;
  }

  /** `^sha256:[0-9a-f]{64}$` */
  predicate IsDigest(s: string) {
    "sha256:" <= s && |s| == 71 && forall i :: 7 <= i < |s| ==> '0' <= s[i] <= '9' || 'a' <= s[i] <= 'f'
  }

  lemma {:induction false} IsDigestExact(s: string)
    ensures IsDigest(s) <==>
      && |s| == 7 + 64 && s[..7] == "sha256:"
      && forall i :: 7 <= i < 71 ==> 48 <= s[i] as int <= 57 || 97 <= s[i] as int <= 102
  {
    if |s| == 71 && "sha256:" <= s {
      assert s[..7] == "sha256:";
    }
  }

  /** `"/".join(parts)` */
  function Join(parts: seq<string>): string {
    if parts == [] then ""
    else if |parts| == 1 then parts[0]
    else parts[0] + "/" + Join(parts[1..])
  }

  /** `s.split("/")` */
  function Split(s: string): (parts: seq<string>)
    ensures parts != []
    ensures forall p :: p in parts ==> '/' !in p
  {
    if s == "" then [""]
    else
      var rest := Split(s[1..]);
      if s[0] == '/' then [""] + rest
      else [[s[0]] + rest[0]] + rest[1..]
  }

  lemma {:induction false} JoinOfSplit(s: string)
    ensures Join(Split(s)) == s
  {
    if s != "" {
      JoinOfSplit(s[1..]);
      var rest := Split(s[1..]);
      if s[0] == '/' {
        assert Split(s)[1..] == rest;
      } else if |rest| > 1 {
        assert Split(s)[1..] == rest[1..];
        assert Join(Split(s)) == [s[0]] + rest[0] + "/" + Join(rest[1..]);
      }
    }
  }

  lemma {:induction false} SplitOfJoin(parts: seq<string>)
    requires parts != []
    requires forall p :: p in parts ==> '/' !in p
    ensures Split(Join(parts)) == parts
    decreases |parts|, |parts[0]|
  {
    if parts[0] == "" {
      if |parts| > 1 {
        assert parts[1] in parts;
        SplitOfJoin(parts[1..]);
        assert Join(parts) == "/" + Join(parts[1..]);
      }
    } else {
      var shorter := [parts[0][1..]] + parts[1..];
      assert parts[0] in parts;
      assert parts[0][0] in parts[0];
      SplitOfJoin(shorter);
      assert shorter[1..] == parts[1..];
      var joined := [parts[0][0]] + Join(shorter);
      assert Join(parts) == joined;
      assert joined[1..] == Join(shorter);
      assert parts[0] == [parts[0][0]] + shorter[0];
      assert parts == [parts[0]] + parts[1..];
    }
  }

  /** `s.replace(c, by)` for a one-character pattern. */
  function ReplaceChar(s: string, c: char, substitute: string): string {
    if s == "" then ""
    else (if s[0] == c then substitute else [s[0]]) + ReplaceChar(s[1..], c, substitute)
  }

  /** `s.replace(ab, by)` for a two-character pattern, scanning from the left. */
  function ReplacePair(s: string, a: char, b: char, substitute: string): string {
    if s == "" then ""
    else if |s| > 1 && s[0] == a && s[1] == b then substitute + ReplacePair(s[2..], a, b, substitute)
    else [s[0]] + ReplacePair(s[1..], a, b, substitute)
  }
}
