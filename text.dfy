/**
 * Text helpers shared by the sample generator and the evaluator, each the
 * ASCII reading of a Python builtin: character classes, `str.lower`,
 * `str.split("_")`, `"_".join`, `str.rfind`, the name parts of a path
 * (`PurePath.stem`, `PurePath.suffix`), and the zero-padded fields
 * `f"{n:06d}"` / `f"{n:06x}"` with the `int(...)` that reads the first back.
 */
module Text {

  predicate IsDigit(c: char) { '0' <= c <= '9' }
  predicate IsLowerLetter(c: char) { 'a' <= c <= 'z' }
  predicate IsUpperLetter(c: char) { 'A' <= c <= 'Z' }

  /** The class `[A-Za-z0-9]`. */
  predicate IsAlnum(c: char) { IsDigit(c) || IsLowerLetter(c) || IsUpperLetter(c) }

  /** The class `[0-9a-f]`. */
  predicate IsHexDigit(c: char) { IsDigit(c) || 'a' <= c <= 'f' }

  // The predicates over whole strings recurse on the first character, so that
  // the verifier can evaluate them on string literals.

  predicate AllDigits(s: string) { s == [] || (IsDigit(s[0]) && AllDigits(s[1..])) }
  predicate AllHex(s: string) { s == [] || (IsHexDigit(s[0]) && AllHex(s[1..])) }
  predicate AllLowerLetters(s: string) { s == [] || (IsLowerLetter(s[0]) && AllLowerLetters(s[1..])) }
  predicate NoUpper(s: string) { s == [] || (!IsUpperLetter(s[0]) && NoUpper(s[1..])) }

  /** `s.isdigit()`, for ASCII text: non-empty and made of digits only. */
  predicate IsDigits(s: string) { s != [] && AllDigits(s) }

  predicate StartsWith(s: string, p: string) { |p| <= |s| && s[..|p|] == p }

  lemma AllDigitsAt(s: string)
    ensures AllDigits(s) <==> forall i :: 0 <= i < |s| ==> IsDigit(s[i])
  {
    if s != [] {
      AllDigitsAt(s[1..]);
      assert forall i :: 1 <= i < |s| ==> s[i] == s[1..][i - 1];
    }
  }

  lemma AllHexAt(s: string)
    ensures AllHex(s) <==> forall i :: 0 <= i < |s| ==> IsHexDigit(s[i])
  {
    if s != [] {
      AllHexAt(s[1..]);
      assert forall i :: 1 <= i < |s| ==> s[i] == s[1..][i - 1];
    }
  }

  lemma AllLowerLettersAt(s: string)
    ensures AllLowerLetters(s) <==> forall i :: 0 <= i < |s| ==> IsLowerLetter(s[i])
  {
    if s != [] {
      AllLowerLettersAt(s[1..]);
      assert forall i :: 1 <= i < |s| ==> s[i] == s[1..][i - 1];
    }
  }

  lemma NoUpperAt(s: string)
    ensures NoUpper(s) <==> forall i :: 0 <= i < |s| ==> !IsUpperLetter(s[i])
  {
    if s != [] {
      NoUpperAt(s[1..]);
      assert forall i :: 1 <= i < |s| ==> s[i] == s[1..][i - 1];
    }
  }

  // ---------------------------------------------------------------- case

  function LowerChar(c: char): char
  {
    if IsUpperLetter(c) then (c as int + 32) as char else c
  }

  /** `s.lower()` on ASCII text. */
  function Lower(s: string): (r: string)
    ensures |r| == |s|
    ensures forall i :: 0 <= i < |s| ==> r[i] == LowerChar(s[i])
  {
    if s == [] then [] else [LowerChar(s[0])] + Lower(s[1..])
  }

  lemma LowerConcat(a: string, b: string)
    ensures Lower(a + b) == Lower(a) + Lower(b)
  {
    assert forall i :: 0 <= i < |a + b| ==> Lower(a + b)[i] == (Lower(a) + Lower(b))[i];
  }

  /** Text without upper-case letters is its own lower case. */
  lemma LowerOfNoUpper(s: string)
    requires NoUpper(s)
    ensures Lower(s) == s
  {
    NoUpperAt(s);
    assert forall i :: 0 <= i < |s| ==> Lower(s)[i] == s[i];
  }

  lemma NoUpperConcat(a: string, b: string)
    requires NoUpper(a) && NoUpper(b)
    ensures NoUpper(a + b)
  {
    NoUpperAt(a);
    NoUpperAt(b);
    NoUpperAt(a + b);
  }

  // ---------------------------------------------------------- split / join

  /**
   * `s.split(sep)`: the pieces between the separators, empty pieces included;
   * never an empty list (`"".split("_") == [""]`).
   */
  function Split(s: string, sep: char): (r: seq<string>)
    ensures |r| >= 1
    ensures forall k :: 0 <= k < |r| ==> sep !in r[k]
  {
    if s == [] then [[]]
    else
      var rest := Split(s[1..], sep);
      if s[0] == sep then [[]] + rest else [[s[0]] + rest[0]] + rest[1..]
  }

  lemma {:induction false} SplitWithoutSep(s: string, sep: char)
    requires sep !in s
    ensures Split(s, sep) == [s]
  {
    if s != [] {
      SplitWithoutSep(s[1..], sep);
      assert [s[0]] + s[1..] == s;
    }
  }

  /** Splitting at one separator splits the two sides independently. */
  lemma {:induction false} SplitConcat(a: string, b: string, sep: char)
    ensures Split(a + [sep] + b, sep) == Split(a, sep) + Split(b, sep)
  {
    if a == [] {
      assert (a + [sep] + b)[1..] == b;
    } else {
      assert (a + [sep] + b)[1..] == a[1..] + [sep] + b;
      SplitConcat(a[1..], b, sep);
    }
  }

  /** Splitting at the first separator: the piece before it, then the pieces of the rest. */
  lemma SplitCons(a: string, b: string, sep: char)
    requires sep !in a
    ensures Split(a + [sep] + b, sep) == [a] + Split(b, sep)
  {
    SplitConcat(a, b, sep);
    SplitWithoutSep(a, sep);
  }

  lemma {:induction false} SplitNoUpper(s: string, sep: char)
    requires NoUpper(s)
    ensures forall k :: 0 <= k < |Split(s, sep)| ==> NoUpper(Split(s, sep)[k])
  {
    if s != [] {
      SplitNoUpper(s[1..], sep);
      var rest := Split(s[1..], sep);
      if s[0] != sep {
        assert ([s[0]] + rest[0])[1..] == rest[0];
      }
    }
  }

  /** `[t for t in ts if t]` */
  function NonEmpty(ts: seq<string>): (r: seq<string>)
    ensures forall k :: 0 <= k < |r| ==> r[k] != [] && r[k] in ts
  {
    if ts == [] then []
    else if ts[0] == [] then NonEmpty(ts[1..])
    else [ts[0]] + NonEmpty(ts[1..])
  }

  lemma {:induction false} NonEmptyConcat(a: seq<string>, b: seq<string>)
    ensures NonEmpty(a + b) == NonEmpty(a) + NonEmpty(b)
  {
    if a == [] {
      assert a + b == b;
    } else {
      assert (a + b)[0] == a[0];
      assert (a + b)[1..] == a[1..] + b;
      NonEmptyConcat(a[1..], b);
    }
  }

  /** The non-empty `_`-separated tokens of a string: `[t for t in s.split("_") if t]`. */
  function Tokens(s: string): seq<string>
  {
    NonEmpty(Split(s, '_'))
  }

  /** Every token is a non-empty piece without '_'. */
  lemma TokensAreWords(s: string)
    ensures forall k :: 0 <= k < |Tokens(s)| ==> Tokens(s)[k] != [] && '_' !in Tokens(s)[k]
  {
    var parts := Split(s, '_');
    forall k | 0 <= k < |Tokens(s)| ensures Tokens(s)[k] != [] && '_' !in Tokens(s)[k] {
      var j :| 0 <= j < |parts| && parts[j] == Tokens(s)[k];
    }
  }

  lemma TokensConcat(a: string, b: string)
    ensures Tokens(a + "_" + b) == Tokens(a) + Tokens(b)
  {
    SplitConcat(a, b, '_');
    NonEmptyConcat(Split(a, '_'), Split(b, '_'));
  }

  /** A non-empty string without '_' is its own single token. */
  lemma TokensOfWord(s: string)
    requires s != [] && '_' !in s
    ensures Tokens(s) == [s]
  {
    SplitWithoutSep(s, '_');
    assert NonEmpty([s]) == [s] + NonEmpty([s][1..]);
    assert [s][1..] == [];
  }

  /** `sep.join(ts)` */
  function Join(ts: seq<string>, sep: char): string
  {
    if ts == [] then [] else if |ts| == 1 then ts[0] else ts[0] + [sep] + Join(ts[1..], sep)
  }

  lemma {:induction false} JoinConcat(a: seq<string>, b: seq<string>, sep: char)
    requires a != [] && b != []
    ensures Join(a + b, sep) == Join(a, sep) + [sep] + Join(b, sep)
  {
    if |a| == 1 {
      assert (a + b)[1..] == b;
    } else {
      assert (a + b)[1..] == a[1..] + b;
      JoinConcat(a[1..], b, sep);
    }
  }

  /** Cutting a '_'-join of non-empty words without '_' gives the words back. */
  lemma {:induction false} TokensOfJoin(ws: seq<string>)
    requires forall k :: 0 <= k < |ws| ==> ws[k] != [] && '_' !in ws[k]
    ensures Tokens(Join(ws, '_')) == ws
  {
    if ws == [] {
      assert Split([], '_') == [[]];
    } else if |ws| == 1 {
      TokensOfWord(ws[0]);
    } else {
      TokensOfJoin(ws[1..]);
      TokensConcat(ws[0], Join(ws[1..], '_'));
      TokensOfWord(ws[0]);
      assert ws == [ws[0]] + ws[1..];
    }
  }

  lemma {:induction false} NoUpperJoin(ws: seq<string>, sep: char)
    requires forall k :: 0 <= k < |ws| ==> NoUpper(ws[k])
    requires !IsUpperLetter(sep)
    ensures NoUpper(Join(ws, sep))
  {
    if |ws| > 1 {
      NoUpperJoin(ws[1..], sep);
      NoUpperConcat(ws[0], [sep]);
      NoUpperConcat(ws[0] + [sep], Join(ws[1..], sep));
    }
  }

  /**
   * Text that `Tokens` cuts up and `Join` puts back unchanged: non-empty, and
   * no '_' at either end or next to another '_'.
   */
  ghost predicate WellSeparated(s: string)
  {
    && s != []
    && s[0] != '_'
    && s[|s| - 1] != '_'
    && forall i :: 0 <= i < |s| - 1 ==> !(s[i] == '_' && s[i + 1] == '_')
  }

  /** A character other than '_' in front of text that does not start with '_' joins its first token. */
  lemma TokensPrepend(c: char, t: string)
    requires c != '_' && t != [] && t[0] != '_'
    ensures var parts := Split(t, '_');
      && parts[0] != []
      && Tokens([c] + t) == [[c] + parts[0]] + NonEmpty(parts[1..])
      && Tokens(t) == [parts[0]] + NonEmpty(parts[1..])
  {
    var parts := Split(t, '_');
    assert ([c] + t)[1..] == t;
    assert Split([c] + t, '_') == [[c] + parts[0]] + parts[1..];
    assert parts[0] != [] by {
      assert parts[0] == [t[0]] + Split(t[1..], '_')[0];
    }
    assert parts == [parts[0]] + parts[1..];
  }

  /** Joining the tokens of well-separated text gives the text back. */
  lemma {:induction false} JoinTokens(s: string)
    requires WellSeparated(s)
    ensures Tokens(s) != [] && Join(Tokens(s), '_') == s
  {
    if |s| == 1 {
      TokensOfWord(s);
    } else {
      var c, t := s[0], s[1..];
      assert s == [c] + t;
      if t[0] == '_' {
        var u := t[1..];
        assert s == [c] + "_" + u;
        assert u[0] == s[2];
        forall i | 0 <= i < |u| - 1 ensures !(u[i] == '_' && u[i + 1] == '_') {
          assert u[i] == s[i + 2] && u[i + 1] == s[i + 3];
        }
        JoinTokens(u);
        TokensConcat([c], u);
        TokensOfWord([c]);
        JoinConcat([[c]], Tokens(u), '_');
      } else {
        forall i | 0 <= i < |t| - 1 ensures !(t[i] == '_' && t[i + 1] == '_') {
          assert t[i] == s[i + 1] && t[i + 1] == s[i + 2];
        }
        JoinTokens(t);
        TokensPrepend(c, t);
      }
    }
  }

  // ----------------------------------------------------------- path names

  /** `s.rfind(c)`: the index of the last `c` in `s`, or -1. */
  function RFind(s: string, c: char): (i: int)
    ensures -1 <= i < |s|
    ensures i >= 0 ==> s[i] == c
    ensures forall j :: i < j < |s| ==> s[j] != c
  {
    if s == [] then -1 else if s[|s| - 1] == c then |s| - 1 else RFind(s[..|s| - 1], c)
  }

  /** `PurePath(name).stem`: the name without its last suffix; a leading dot starts no suffix. */
  function Stem(name: string): string
  {
    var i := RFind(name, '.');
    if 0 < i < |name| - 1 then name[..i] else name
  }

  /** `PurePath(name).suffix`: from the last dot on, or "" (for ".bashrc", "x." and "x"). */
  function Suffix(name: string): string
  {
    var i := RFind(name, '.');
    if 0 < i < |name| - 1 then name[i..] else []
  }

  /** The stem and suffix of `x + ext`, for an extension such as ".wav". */
  lemma StemAndSuffix(x: string, ext: string)
    requires x != [] && |ext| >= 2 && ext[0] == '.' && '.' !in ext[1..]
    ensures Stem(x + ext) == x && Suffix(x + ext) == ext
  {
    var s := x + ext;
    var i := RFind(s, '.');
    assert s[|x|] == '.';
    forall j | |x| < j < |s| ensures s[j] != '.' {
      assert s[j] == ext[1..][j - |x| - 1];
    }
    assert i == |x|;
    assert s[..i] == x;
    assert s[i..] == ext;
  }

  /**
   * `PurePath(name).suffix.lower() == ext` for a lower-case extension such as
   * ".wav" holds exactly when the name is longer than `ext` and ends with it,
   * ignoring case.
   */
  lemma SuffixMatches(name: string, ext: string)
    requires |ext| >= 2 && ext[0] == '.' && '.' !in ext[1..]
    ensures Lower(Suffix(name)) == ext <==> |name| > |ext| && Lower(name[|name| - |ext|..]) == ext
  {
    var i := RFind(name, '.');
    var k := |name| - |ext|;
    if Lower(Suffix(name)) == ext {
      assert 0 < i < |name| - 1;
      assert Suffix(name) == name[i..];
      assert i == k;
    }
    if |name| > |ext| && Lower(name[k..]) == ext {
      assert LowerChar(name[k]) == Lower(name[k..])[0] == '.';
      assert name[k] == '.';
      forall j | k < j < |name| ensures name[j] != '.' {
        assert LowerChar(name[j]) == Lower(name[k..])[j - k] == ext[1..][j - k - 1];
      }
      assert i == k;
    }
  }

  // -------------------------------------------------------- number fields

  function DigitChar(d: nat): (c: char)
    requires d < 16
    ensures d < 10 ==> IsDigit(c)
    ensures IsHexDigit(c)
  {
    if d < 10 then ('0' as int + d) as char else ('a' as int + d - 10) as char
  }

  /** `format(n, "d")` (base 10) or `format(n, "x")` (base 16): at least one digit, lower-case. */
  function Digits(n: nat, base: nat): (r: string)
    requires base == 10 || base == 16
    ensures r != []
    ensures forall i :: 0 <= i < |r| ==> IsHexDigit(r[i]) && (base == 10 ==> IsDigit(r[i]))
    decreases n
  {
    if n < base then [DigitChar(n)] else Digits(n / base, base) + [DigitChar(n % base)]
  }

  function Zeros(k: nat): (r: string)
    ensures |r| == k && forall i :: 0 <= i < k ==> r[i] == '0'
  {
    seq(k, _ => '0')
  }

  /** Left-pads with '0' to at least `width` characters. */
  function ZeroPad(s: string, width: nat): string
  {
    if |s| >= width then s else Zeros(width - |s|) + s
  }

  /** `f"{n:06d}"` */
  function Dec06(n: nat): string
  {
    ZeroPad(Digits(n, 10), 6)
  }

  /** `f"{n:06x}"` */
  function Hex06(n: nat): string
  {
    ZeroPad(Digits(n, 16), 6)
  }

  function DigitValue(c: char): nat
    requires IsDigit(c)
  {
    c as int - '0' as int
  }

  /** `int(s)` for a string of ASCII digits (the empty string reads as 0 here; the source never parses one). */
  function ParseDecimal(s: string): nat
    requires forall i :: 0 <= i < |s| ==> IsDigit(s[i])
  {
    if s == [] then 0 else ParseDecimal(s[..|s| - 1]) * 10 + DigitValue(s[|s| - 1])
  }

  lemma {:induction false} ParseDigits(n: nat)
    ensures ParseDecimal(Digits(n, 10)) == n
  {
    if n >= 10 {
      var s := Digits(n, 10);
      assert s[..|s| - 1] == Digits(n / 10, 10);
      ParseDigits(n / 10);
    }
  }

  lemma {:induction false} ParseLeadingZeros(k: nat, s: string)
    requires forall i :: 0 <= i < |s| ==> IsDigit(s[i])
    ensures ParseDecimal(Zeros(k) + s) == ParseDecimal(s)
  {
    if s == [] {
      assert Zeros(k) + s == Zeros(k);
      if k > 0 {
        assert Zeros(k)[..k - 1] == Zeros(k - 1);
        ParseLeadingZeros(k - 1, []);
        assert Zeros(k - 1) + [] == Zeros(k - 1);
      }
    } else {
      var t := Zeros(k) + s;
      assert t[..|t| - 1] == Zeros(k) + s[..|s| - 1];
      ParseLeadingZeros(k, s[..|s| - 1]);
    }
  }

  /** The six-digit index field is all digits and `int()` reads it back. */
  lemma Dec06RoundTrip(n: nat)
    ensures IsDigits(Dec06(n)) && |Dec06(n)| >= 6
    ensures forall i :: 0 <= i < |Dec06(n)| ==> IsDigit(Dec06(n)[i])
    ensures ParseDecimal(Dec06(n)) == n
  {
    var d := Digits(n, 10);
    AllDigitsAt(Dec06(n));
    ParseDigits(n);
    if |d| < 6 {
      ParseLeadingZeros(6 - |d|, d);
    }
  }

  /** The hex field is made of `[0-9a-f]` only. */
  lemma Hex06IsHex(n: nat)
    ensures |Hex06(n)| >= 6 && AllHex(Hex06(n)) && '_' !in Hex06(n)
  {
    AllHexAt(Hex06(n));
  }
}
