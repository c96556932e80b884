/**
 * The parts of java.lang that the spawn-list entry leans on, with Java's own
 * semantics: 32-bit `int` arithmetic, `Integer.toString`, `String.split` with
 * a single-character pattern (no limit, and limit 2), `String.replace`,
 * `String.trim`, `String.toLowerCase` and `String.hashCode`.
 */
module JavaLang {

  /** A Java `int`. */
  type Int32 = x: int | -0x8000_0000 <= x < 0x8000_0000

  const Modulus: int := 0x1_0000_0000

  /** The `int` that Java's wrapping arithmetic gives for the exact value `x`. */
  function Wrap32(x: int): (r: Int32)
    ensures (x - r) % Modulus == 0
  {
    (x + 0x8000_0000) % Modulus - 0x8000_0000
  }

  /** Two exact values that agree modulo 2^32 wrap to the same `int`. */
  lemma Wrap32Congruent(x: int, y: int)
    requires (x - y) % Modulus == 0
    ensures Wrap32(x) == Wrap32(y)
  {
    var rx, ry := Wrap32(x), Wrap32(y);
    assert (rx - ry) % Modulus == 0 by {
      assert rx - ry == (y - ry) - (x - rx) + (x - y);
    }
  }

  /**
   * Wrapping after every step of `m * a + b` gives the same `int` as
   * wrapping once at the end, which is why Java's step-by-step `int`
   * arithmetic can be modelled by a single Wrap32.
   */
  lemma {:induction false} Wrap32MulAdd(m: int, a: int, b: int)
    ensures Wrap32(m * Wrap32(a) + b) == Wrap32(m * a + b)
  {
    var w := Wrap32(a);
    var q := (a - w) / Modulus;
    assert a - w == q * Modulus;
    assert (m * w + b) - (m * a + b) == (m * q) * -Modulus;
    Wrap32Congruent(m * w + b, m * a + b);
  }

  predicate IsDigit(c: char) {
    '0' <= c <= '9'
  }

  predicate AllDigits(s: string) {
    forall i :: 0 <= i < |s| ==> IsDigit(s[i])
  }

  function DigitChar(d: nat): (c: char)
    requires d < 10
    ensures IsDigit(c) && c as int - '0' as int == d
  {
    ('0' as int + d) as char
  }

  /** Decimal digits of `n`, most significant first, without leading zeros. */
  function NatToString(n: nat): (s: string)
    ensures s != [] && AllDigits(s)
    ensures n == 0 <==> s == "0"
    ensures s[0] == '0' ==> s == "0"
    decreases n
  {
    if n < 10 then [DigitChar(n)] else NatToString(n / 10) + [DigitChar(n % 10)]
  }

  /** Java's `Integer.toString(n)`: a minus sign for negative values, then the digits of |n|. */
  function IntToString(n: int): (s: string)
    ensures s != []
    ensures n >= 0 ==> AllDigits(s)
    ensures n < 0 ==> |s| > 1 && s[0] == '-' && AllDigits(s[1..])
  {
    if n < 0 then "-" + NatToString(-n) else NatToString(n)
  }

  /** Every character of a decimal `int` is a digit or '-'. */
  lemma IntToStringChars(n: int)
    ensures forall i :: 0 <= i < |IntToString(n)| ==> IsDigit(IntToString(n)[i]) || IntToString(n)[i] == '-'
  {
    var s := IntToString(n);
    forall i | 0 <= i < |s| ensures IsDigit(s[i]) || s[i] == '-' {
      if n < 0 && i > 0 {
        assert s[i] == s[1..][i - 1];
      }
    }
  }

  /** A character other than a digit and '-' never occurs in a decimal `int`. */
  lemma IntToStringAvoids(n: int, c: char)
    requires !IsDigit(c) && c != '-'
    ensures c !in IntToString(n)
  {
    IntToStringChars(n);
  }

  // ---------------------------------------------------------------------------
  // Splitting on a single character

  /** The index of the first `c` in `s`. */
  function IndexOf(s: string, c: char): (i: nat)
    requires c in s
    ensures i < |s| && s[i] == c && c !in s[..i]
  {
    if s[0] == c then 0
    else
      var j := IndexOf(s[1..], c);
      assert s[..j + 1] == [s[0]] + s[1..][..j];
      1 + j
  }

  /**
   * Every piece of `s` between occurrences of `c`, empty pieces included:
   * a string with k occurrences of `c` has k + 1 pieces.
   */
  function Pieces(s: string, c: char): (ps: seq<string>)
    ensures |ps| > 0
    decreases |s|
  {
    if c in s then
      var i := IndexOf(s, c);
      [s[..i]] + Pieces(s[i + 1..], c)
    else [s]
  }

  /** `ps` without its trailing empty strings. */
  function DropTrailingEmpty(ps: seq<string>): (r: seq<string>)
    ensures |r| <= |ps| && r == ps[..|r|]
    ensures r != [] ==> r[|r| - 1] != ""
    ensures forall i :: |r| <= i < |ps| ==> ps[i] == ""
  {
    if ps == [] || ps[|ps| - 1] != "" then ps else DropTrailingEmpty(ps[..|ps| - 1])
  }

  /**
   * Java's `s.split(p)` for a pattern `p` that matches exactly the character
   * `c`: the pieces between the matches with trailing empty strings removed
   * (a leading empty string is kept); when nothing matches, `s` itself.
   * So `"".split(p)` is `[""]` while `",".split(",")` is `[]`.
   */
  function Split(s: string, c: char): seq<string> {
    if c in s then DropTrailingEmpty(Pieces(s, c)) else [s]
  }

  /**
   * Java's `s.split(p, 2)`: the text before the first `c` and everything
   * after it (possibly empty); `[s]` when `c` does not occur.
   */
  function SplitOnce(s: string, c: char): (r: seq<string>)
    ensures 1 <= |r| <= 2
    ensures |r| == 1 <==> c !in s
    ensures |r| == 1 ==> r[0] == s
    ensures |r| == 2 ==> c !in r[0] && s == r[0] + [c] + r[1]
  {
    if c in s then
      var i := IndexOf(s, c);
      assert s == s[..i] + [c] + s[i + 1..];
      [s[..i], s[i + 1..]]
    else [s]
  }

  /** The pieces of `x + [c] + y` are `x` followed by the pieces of `y`. */
  lemma {:induction false} PiecesAfterFirst(x: string, c: char, y: string)
    requires c !in x
    ensures Pieces(x + [c] + y, c) == [x] + Pieces(y, c)
  {
    var s := x + [c] + y;
    assert s[|x|] == c;
    IndexOfPrefix(x, c, y);
    assert s[..|x|] == x;
    assert s[|x| + 1..] == y;
  }

  lemma {:induction false} IndexOfPrefix(x: string, c: char, y: string)
    requires c !in x
    ensures c in x + [c] + y && IndexOf(x + [c] + y, c) == |x|
  {
    var s := x + [c] + y;
    assert s[|x|] == c;
    if x != [] {
      assert s[1..] == x[1..] + [c] + y;
      IndexOfPrefix(x[1..], c, y);
    }
  }

  /** Cutting at any occurrence of `c`: the pieces of both sides, in order. */
  lemma {:induction false} PiecesAround(x: string, c: char, y: string)
    ensures Pieces(x + [c] + y, c) == Pieces(x, c) + Pieces(y, c)
    decreases |x|
  {
    if c in x {
      var i := IndexOf(x, c);
      var x0, x1 := x[..i], x[i + 1..];
      assert x == x0 + [c] + x1;
      assert x + [c] + y == x0 + [c] + (x1 + [c] + y);
      PiecesAfterFirst(x0, c, x1 + [c] + y);
      PiecesAround(x1, c, y);
      PiecesAfterFirst(x0, c, x1);
    } else {
      PiecesAfterFirst(x, c, y);
    }
  }

  /** Trailing empty strings of a concatenation come from its second part unless that part is all empty. */
  lemma {:induction false} DropAppend(a: seq<string>, b: seq<string>)
    ensures DropTrailingEmpty(a + b)
         == if DropTrailingEmpty(b) == [] then DropTrailingEmpty(a) else a + DropTrailingEmpty(b)
    decreases |b|
  {
    if b == [] {
      assert a + b == a;
    } else if b[|b| - 1] == "" {
      assert (a + b)[..|a + b| - 1] == a + b[..|b| - 1];
      DropAppend(a, b[..|b| - 1]);
    }
  }

  /** SplitOnce cuts at the first `c`. */
  lemma SplitOnceAt(x: string, c: char, y: string)
    requires c !in x
    ensures SplitOnce(x + [c] + y, c) == [x, y]
  {
    IndexOfPrefix(x, c, y);
    var s := x + [c] + y;
    assert s[..|x|] == x && s[|x| + 1..] == y;
  }

  /** `k` copies of `c`. */
  function Repeat(c: char, k: nat): (r: string)
    ensures |r| == k && forall i :: 0 <= i < k ==> r[i] == c
  {
    seq(k, _ => c)
  }

  /** `k` empty strings. */
  function Empties(k: nat): (r: seq<string>)
    ensures |r| == k && forall i :: 0 <= i < k ==> r[i] == ""
  {
    seq(k, _ => "")
  }

  /** A run of k delimiters has k + 1 empty pieces. */
  lemma {:induction false} PiecesOfRepeat(c: char, k: nat)
    ensures Pieces(Repeat(c, k), c) == Empties(k + 1)
    decreases k
  {
    if k == 0 {
      assert Repeat(c, 0) == [];
    } else {
      assert Repeat(c, k) == [] + [c] + Repeat(c, k - 1);
      PiecesAfterFirst([], c, Repeat(c, k - 1));
      PiecesOfRepeat(c, k - 1);
      assert [""] + Empties(k) == Empties(k + 1);
    }
  }

  /** Appending k delimiters to a `c`-free x adds k empty pieces after x. */
  lemma PiecesWithTrailing(x: string, c: char, k: nat)
    requires c !in x
    ensures Pieces(x + Repeat(c, k), c) == [x] + Empties(k)
  {
    if k == 0 {
      assert x + Repeat(c, 0) == x;
    } else {
      assert x + Repeat(c, k) == x + [c] + Repeat(c, k - 1);
      PiecesAfterFirst(x, c, Repeat(c, k - 1));
      PiecesOfRepeat(c, k - 1);
    }
  }

  /** Dropping trailing empties of `ps + empties` when `ps` ends non-empty. */
  lemma {:induction false} DropAfterNonEmpty(ps: seq<string>, k: nat)
    requires ps != [] && ps[|ps| - 1] != ""
    ensures DropTrailingEmpty(ps + Empties(k)) == ps
  {
    if k == 0 {
      assert ps + Empties(0) == ps;
    } else {
      var all := ps + Empties(k);
      assert all[|all| - 1] == "";
      assert all[..|all| - 1] == ps + Empties(k - 1);
      DropAfterNonEmpty(ps, k - 1);
    }
  }

  /** `ps` joined with `c` between consecutive elements. */
  function Join(ps: seq<string>, c: char): string
    requires |ps| > 0
  {
    if |ps| == 1 then ps[0] else ps[0] + [c] + Join(ps[1..], c)
  }

  /** Pieces loses nothing: its pieces are free of `c` and join back to `s`. */
  lemma {:induction false} PiecesJoin(s: string, c: char)
    ensures Join(Pieces(s, c), c) == s
    ensures forall i :: 0 <= i < |Pieces(s, c)| ==> c !in Pieces(s, c)[i]
    decreases |s|
  {
    if c in s {
      var i := IndexOf(s, c);
      PiecesJoin(s[i + 1..], c);
      assert s == s[..i] + [c] + s[i + 1..];
      var ps := Pieces(s, c);
      assert ps[1..] == Pieces(s[i + 1..], c);
      forall j | 0 <= j < |ps| ensures c !in ps[j] {
        if j > 0 { assert ps[j] == Pieces(s[i + 1..], c)[j - 1]; }
      }
    }
  }

  /** One piece followed by k empty pieces joins to that piece and k delimiters. */
  lemma {:induction false} JoinThenEmpties(x: string, k: nat, c: char)
    ensures Join([x] + Empties(k), c) == x + Repeat(c, k)
    decreases k
  {
    if k == 0 {
      assert [x] + Empties(0) == [x];
      assert x + Repeat(c, 0) == x;
    } else {
      assert ([x] + Empties(k))[1..] == [""] + Empties(k - 1);
      JoinThenEmpties("", k - 1, c);
      assert "" + Repeat(c, k - 1) == Repeat(c, k - 1);
      assert x + [c] + Repeat(c, k - 1) == x + Repeat(c, k);
    }
  }

  /**
   * A record of four delimited fields followed by k delimiters, nested to
   * the right so that each field is split off by one step of Pieces.
   */
  function FourFieldRecord(a: string, b: string, m: string, x: string, k: nat, c: char): string {
    a + [c] + (b + [c] + (m + [c] + (x + Repeat(c, k))))
  }

  /**
   * `s` splits into exactly four fields, as Java's split counts them: four
   * pieces without `c`, the last one non-empty, then any number of trailing
   * delimiters (whose empty pieces split drops).
   */
  ghost predicate HasFourFields(s: string, c: char) {
    exists a: string, b: string, m: string, x: string, k: nat
      :: s == FourFieldRecord(a, b, m, x, k, c)
         && c !in a && c !in b && c !in m && c !in x && x != ""
  }

  /** The raw pieces of three fields followed by k delimiters: the fields, then k empty pieces. */
  lemma PiecesOfThreeFields(a: string, b: string, m: string, k: nat, c: char)
    requires c !in a && c !in b && c !in m
    ensures c in a + [c] + (b + [c] + (m + Repeat(c, k)))
    ensures Pieces(a + [c] + (b + [c] + (m + Repeat(c, k))), c) == [a, b, m] + Empties(k)
  {
    var t2 := m + Repeat(c, k);
    var t1 := b + [c] + t2;
    var s := a + [c] + t1;
    assert s[|a|] == c;
    assert Pieces(t2, c) == [m] + Empties(k) by {
      PiecesWithTrailing(m, c, k);
    }
    assert Pieces(t1, c) == [b] + Pieces(t2, c) by {
      PiecesAfterFirst(b, c, t2);
    }
    assert Pieces(s, c) == [a] + Pieces(t1, c) by {
      PiecesAfterFirst(a, c, t1);
    }
    PrependThree(a, b, m, Empties(k));
  }

  /** Prepending three pieces one by one is prepending their list. */
  lemma PrependThree(a: string, b: string, m: string, r: seq<string>)
    ensures [a] + ([b] + ([m] + r)) == [a, b, m] + r
  {
    assert [a, b, m] == [a] + [b] + [m];
  }

  /** The raw pieces of a four-field record: its fields, then one empty piece per trailing delimiter. */
  lemma PiecesOfFourFieldRecord(a: string, b: string, m: string, x: string, k: nat, c: char)
    requires c !in a && c !in b && c !in m && c !in x
    ensures c in FourFieldRecord(a, b, m, x, k, c)
    ensures Pieces(FourFieldRecord(a, b, m, x, k, c), c) == [a] + ([b] + ([m] + ([x] + Empties(k))))
  {
    var t3 := x + Repeat(c, k);
    var t2 := m + [c] + t3;
    var t1 := b + [c] + t2;
    PiecesWithTrailing(x, c, k);
    PiecesAfterFirst(m, c, t3);
    PiecesAfterFirst(b, c, t2);
    PiecesAfterFirst(a, c, t1);
    assert FourFieldRecord(a, b, m, x, k, c)[|a|] == c;
  }

  /** The four fields of such a record are exactly what split returns. */
  lemma SplitFourFields(a: string, b: string, m: string, x: string, k: nat, c: char)
    requires c !in a && c !in b && c !in m && c !in x && x != ""
    ensures Split(FourFieldRecord(a, b, m, x, k, c), c) == [a, b, m, x]
  {
    PiecesOfFourFieldRecord(a, b, m, x, k, c);
    assert [a] + ([b] + ([m] + ([x] + Empties(k)))) == [a, b, m, x] + Empties(k);
    DropAfterNonEmpty([a, b, m, x], k);
  }

  /** A record that split cuts into four fields has the four-field shape. */
  lemma FourSplitFieldsHaveShape(s: string, c: char)
    requires |Split(s, c)| == 4
    ensures HasFourFields(s, c)
  {
    assert c in s;
    var ps := Pieces(s, c);
    var d := DropTrailingEmpty(ps);
    assert d == [d[0], d[1], d[2], d[3]];
    var k := |ps| - 4;
    assert ps == d + Empties(k);
    PiecesJoin(s, c);
    assert c !in d[0] && c !in d[1] && c !in d[2] && c !in d[3] by {
      assert d[0] == ps[0] && d[1] == ps[1] && d[2] == ps[2] && d[3] == ps[3];
    }
    JoinOfFourThenEmpties(d[0], d[1], d[2], d[3], k, c);
    assert s == Join([d[0], d[1], d[2], d[3]] + Empties(k), c);
  }

  /** Joining four fields and then k empty pieces gives the four-field record. */
  lemma JoinOfFourThenEmpties(a: string, b: string, m: string, x: string, k: nat, c: char)
    ensures Join([a, b, m, x] + Empties(k), c) == FourFieldRecord(a, b, m, x, k, c)
  {
    var ps := [a, b, m, x] + Empties(k);
    var ps1, ps2, ps3 := ps[1..], ps[2..], ps[3..];
    assert ps3 == [x] + Empties(k);
    JoinThenEmpties(x, k, c);
    assert Join(ps1, c) == b + [c] + Join(ps2, c) by { assert ps1[1..] == ps2; }
    assert Join(ps2, c) == m + [c] + Join(ps3, c) by { assert ps2[1..] == ps3; }
  }

  /** Java's split yields exactly four fields if and only if the record has the four-field shape. */
  lemma SplitHasFourIff(s: string, c: char)
    ensures |Split(s, c)| == 4 <==> HasFourFields(s, c)
  {
    if HasFourFields(s, c) {
      var a, b, m, x, k :| s == FourFieldRecord(a, b, m, x, k, c)
         && c !in a && c !in b && c !in m && c !in x && x != "";
      SplitFourFields(a, b, m, x, k, c);
    }
    if |Split(s, c)| == 4 {
      FourSplitFieldsHaveShape(s, c);
    }
  }

  // ---------------------------------------------------------------------------
  // Other String methods

  /** Java's `s.replace(String.valueOf(c), "")`: every `c` removed. */
  function RemoveAll(s: string, c: char): (r: string)
    ensures c !in r
    ensures c !in s ==> r == s
  {
    if s == [] then []
    else (if s[0] == c then [] else [s[0]]) + RemoveAll(s[1..], c)
  }

  /** Java's `Character.toLowerCase` on the ASCII upper-case letters. */
  function LowerChar(ch: char): char {
    if 'A' <= ch <= 'Z' then (ch as int - 'A' as int + 'a' as int) as char else ch
  }

  /** Java's `s.toLowerCase()`, character by character. */
  function ToLowerCase(s: string): (r: string)
    ensures |r| == |s|
  {
    seq(|s|, i requires 0 <= i < |s| => LowerChar(s[i]))
  }

  function TrimStart(s: string): string {
    if s != [] && s[0] <= ' ' then TrimStart(s[1..]) else s
  }

  function TrimEnd(s: string): string {
    if s != [] && s[|s| - 1] <= ' ' then TrimEnd(s[..|s| - 1]) else s
  }

  /** Java's `s.trim()`: leading and trailing characters up to U+0020 removed. */
  function Trim(s: string): string {
    TrimEnd(TrimStart(s))
  }

  predicate IsBlank(s: string) {
    forall i :: 0 <= i < |s| ==> s[i] <= ' '
  }

  lemma {:induction false} TrimStartBlank(s: string)
    ensures TrimStart(s) == [] <==> IsBlank(s)
    ensures TrimStart(s) != [] ==> TrimStart(s)[0] > ' '
  {
    if s != [] && s[0] <= ' ' {
      TrimStartBlank(s[1..]);
      assert IsBlank(s) <==> IsBlank(s[1..]) by {
        if IsBlank(s[1..]) {
          forall i | 0 <= i < |s| ensures s[i] <= ' ' {
            if i > 0 { assert s[i] == s[1..][i - 1]; }
          }
        }
      }
    }
  }

  lemma {:induction false} TrimEndKeepsHead(s: string)
    requires s != [] && s[0] > ' '
    ensures TrimEnd(s) != []
  {
    if s[|s| - 1] <= ' ' {
      assert |s| > 1;
      TrimEndKeepsHead(s[..|s| - 1]);
    }
  }

  /** `s.trim().equals("")` holds exactly when every character of `s` is at most U+0020. */
  lemma TrimEmptyIffBlank(s: string)
    ensures Trim(s) == "" <==> IsBlank(s)
  {
    TrimStartBlank(s);
    if TrimStart(s) != [] {
      TrimEndKeepsHead(TrimStart(s));
    }
  }

  /**
   * Java's `String.hashCode()`: the polynomial in 31 over the characters,
   * with `int` wrap-around.
   */
  function StringHash(s: string): Int32 {
    if s == [] then 0 else Wrap32(31 * StringHash(s[..|s| - 1]) + s[|s| - 1] as int)
  }
}
