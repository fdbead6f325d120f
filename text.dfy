/**
 * The string operations the workout labels are built with: upper-casing the
 * first letter, decimal rendering of a day number, and `split(' ')` /
 * `join(' ')` on single spaces.
 */
module Text {

  const Space: char := ' '

  /** The string holds no space */
  predicate NoSpace(s: string) {
    forall i :: 0 <= i < |s| ==> s[i] != Space
  }

  /** `toUpperCase()` on one character, for the lower-case ASCII letters a workout type is spelt with */
  function UpperChar(c: char): char {
    if 'a' <= c <= 'z' then (c as int - 'a' as int + 'A' as int) as char else c
  }

  /** `${s[0].toUpperCase()}${s.slice(1)}`; the source reads `s[0]`, so `s` is not empty */
  function Capitalize(s: string): (r: string)
    requires |s| > 0
    ensures |r| == |s| && r[1..] == s[1..]
  {
    [UpperChar(s[0])] + s[1..]
  }

  function Digit(d: nat): (c: char)
    requires d < 10
    ensures '0' <= c <= '9'
  {
    ('0' as int + d) as char
  }

  /** The decimal rendering a template literal gives a non-negative integer: digits only, and no leading zero */
  function DecimalString(n: nat): (r: string)
    ensures |r| > 0
    ensures forall i :: 0 <= i < |r| ==> '0' <= r[i] <= '9'
    ensures r[0] == '0' <==> n == 0
  {
    if n < 10 then [Digit(n)] else DecimalString(n / 10) + [Digit(n % 10)]
  }

  /** The value of one decimal digit */
  function DigitValue(c: char): nat
    requires '0' <= c <= '9'
  {
    c as int - '0' as int
  }

  /** The number a run of decimal digits spells, read from the left: each digit shifts what came before one place */
  function DigitsValue(s: string): nat
    requires forall i :: 0 <= i < |s| ==> '0' <= s[i] <= '9'
  {
    if s == [] then 0 else 10 * DigitsValue(s[..|s| - 1]) + DigitValue(s[|s| - 1])
  }

  /** The rendering spells the number it renders */
  lemma {:induction false} DecimalRoundTrip(n: nat)
    ensures DigitsValue(DecimalString(n)) == n
    decreases n
  {
    var r := DecimalString(n);
    if n >= 10 {
      assert r[..|r| - 1] == DecimalString(n / 10);
      DecimalRoundTrip(n / 10);
    }
  }

  /** Different numbers have different renderings */
  lemma DecimalStringInjective(m: nat, n: nat)
    requires DecimalString(m) == DecimalString(n)
    ensures m == n
  {
    DecimalRoundTrip(m);
    DecimalRoundTrip(n);
  }

  /** `s.split(' ')`: the pieces between single spaces, empty pieces included */
  function Split(s: string): (words: seq<string>)
    ensures |words| >= 1
    ensures forall i :: 0 <= i < |words| ==> NoSpace(words[i])
  {
    if s == [] then [[]]
    else if s[0] == Space then [[]] + Split(s[1..])
    else
      var rest := Split(s[1..]);
      [[s[0]] + rest[0]] + rest[1..]
  }

  /** `words.join(' ')` */
  function Join(words: seq<string>): string {
    if words == [] then []
    else if |words| == 1 then words[0]
    else words[0] + [Space] + Join(words[1..])
  }

  /** `s.split(' ').splice(1).join(' ')`: everything after the first space, or "" when there is none */
  function WordsAfterFirst(s: string): string {
    Join(Split(s)[1..])
  }

  /** Joining the pieces of a split gives back the string */
  lemma {:induction false} JoinSplit(s: string)
    ensures Join(Split(s)) == s
    decreases |s|
  {
    if s == [] {
    } else if s[0] == Space {
      JoinSplit(s[1..]);
      assert Split(s) == [[]] + Split(s[1..]);
      assert s == [Space] + s[1..];
    } else {
      var rest := Split(s[1..]);
      JoinSplit(s[1..]);
      if |rest| == 1 {
        assert Join(Split(s)) == [s[0]] + rest[0];
      } else {
        assert Join(rest) == rest[0] + [Space] + Join(rest[1..]);
        assert Split(s)[1..] == rest[1..];
        calc {
          Join(Split(s));
          ([s[0]] + rest[0]) + [Space] + Join(rest[1..]);
          [s[0]] + (rest[0] + [Space] + Join(rest[1..]));
          [s[0]] + s[1..];
        }
      }
    }
  }

  /** A string without spaces is a single piece */
  lemma {:induction false} SplitWord(w: string)
    requires NoSpace(w)
    ensures Split(w) == [w]
    decreases |w|
  {
    if w != [] {
      assert w[0] != Space;
      assert NoSpace(w[1..]);
      SplitWord(w[1..]);
      assert [w[0]] + w[1..] == w;
    }
  }

  /** Splitting a word followed by a space yields the word, then the split of the rest */
  lemma {:induction false} SplitAfterWord(w: string, rest: string)
    requires NoSpace(w)
    ensures Split(w + [Space] + rest) == [w] + Split(rest)
    decreases |w|
  {
    var s := w + [Space] + rest;
    if w == [] {
      assert s == [Space] + rest;
      assert s[1..] == rest;
    } else {
      assert s[0] == w[0] && w[0] != Space;
      assert s[1..] == w[1..] + [Space] + rest;
      assert NoSpace(w[1..]);
      SplitAfterWord(w[1..], rest);
      assert [w[0]] + w[1..] == w;
    }
  }

  /** The words after a leading space-free word are exactly what followed its space */
  lemma WordsAfterFirstOf(w: string, rest: string)
    requires NoSpace(w)
    ensures WordsAfterFirst(w + [Space] + rest) == rest
  {
    SplitAfterWord(w, rest);
    assert Split(w + [Space] + rest)[1..] == Split(rest);
    JoinSplit(rest);
  }
}
