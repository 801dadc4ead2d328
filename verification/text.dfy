/** The string primitives the inventory code borrows from Python: `strip`,
    whitespace `split`, `" ".join`, and the decimal rendering of an `int`. */
module Text {
  import opened Wrappers

  /** Whitespace as Python's `str.isspace` classifies it: the ASCII
      controls TAB to CR and FS to US, the space, NEL, NO-BREAK SPACE and
      the Unicode space and separator characters. */
  predicate IsSpace(c: char) {
    || c == ' ' || ('\t' <= c <= '\r')
    || ('\U{001C}' <= c <= '\U{001F}')
    || c == '\U{0085}' || c == '\U{00A0}' || c == '\U{1680}'
    || ('\U{2000}' <= c <= '\U{200A}')
    || c == '\U{2028}' || c == '\U{2029}' || c == '\U{202F}' || c == '\U{205F}' || c == '\U{3000}'
  }

  predicate AllSpace(s: string) {
    forall i | 0 <= i < |s| :: IsSpace(s[i])
  }

  /** `s.lstrip()` */
  function TrimLeft(s: string): (r: string)
    ensures |r| <= |s| && r == s[|s| - |r|..]
    ensures r == [] || !IsSpace(r[0])
    ensures AllSpace(s[..|s| - |r|])
  {
    if s != [] && IsSpace(s[0]) then TrimLeft(s[1..]) else s
  }

  /** `s.rstrip()` */
  function TrimRight(s: string): (r: string)
    ensures |r| <= |s| && r == s[..|r|]
    ensures r == [] || !IsSpace(r[|r| - 1])
    ensures AllSpace(s[|r|..])
  {
    if s != [] && IsSpace(s[|s| - 1]) then TrimRight(s[..|s| - 1]) else s
  }

  /** `s.strip()` */
  function Strip(s: string): string {
    TrimRight(TrimLeft(s))
  }

  /** A text that neither starts nor ends with whitespace. */
  predicate Trimmed(x: string) {
    x == [] || (!IsSpace(x[0]) && !IsSpace(x[|x| - 1]))
  }

  /** A stripped text neither starts nor ends with whitespace. */
  lemma StripEnds(s: string)
    ensures Trimmed(Strip(s))
  {
    var l := TrimLeft(s);
    var r := TrimRight(l);
    if r != [] {
      assert r[0] == l[0];
    }
  }

  /** A text that neither starts nor ends with whitespace is its own
      `strip()`. */
  lemma TrimmedIsStripped(s: string)
    requires Trimmed(s)
    ensures Strip(s) == s
  {
  }

  /** `not s.strip()`: the text is empty once surrounding whitespace is dropped. */
  predicate Blank(s: string) {
    Strip(s) == []
  }

  /** `(x or "")` for a nullable text value. */
  function OrEmpty(x: Option<string>): string {
    x.GetOr("")
  }

  /** A text is blank exactly when it consists of whitespace only. */
  lemma BlankIffAllSpace(s: string)
    ensures Blank(s) <==> AllSpace(s)
  {
    var t := TrimLeft(s);
    assert s == s[..|s| - |t|] + t;
    if Blank(s) {
      assert AllSpace(t[|TrimRight(t)|..]);
      assert t == [];
      assert s == s[..|s| - |t|];
    }
  }

  /** A non-empty run of non-whitespace characters: one element of `split()`. */
  predicate Word(w: string) {
    w != [] && forall i | 0 <= i < |w| :: !IsSpace(w[i])
  }

  /** Length of the leading run of non-whitespace characters. */
  function WordLength(s: string): (n: nat)
    ensures n <= |s|
    ensures forall i | 0 <= i < n :: !IsSpace(s[i])
    ensures n == |s| || IsSpace(s[n])
  {
    if s == [] || IsSpace(s[0]) then 0 else 1 + WordLength(s[1..])
  }

  /** `s.split()` with no separator: the maximal runs of non-whitespace,
      read left to right. */
  function Split(s: string): seq<string>
    decreases |s|
  {
    if s == [] then []
    else if IsSpace(s[0]) then Split(s[1..])
    else
      var n := WordLength(s);
      [s[..n]] + Split(s[n..])
  }

  /** Every element of `split()` is a word. */
  lemma {:induction false} SplitWords(s: string)
    ensures forall k | 0 <= k < |Split(s)| :: Word(Split(s)[k])
    decreases |s|
  {
    if s != [] {
      if IsSpace(s[0]) {
        SplitWords(s[1..]);
      } else {
        var n := WordLength(s);
        SplitWords(s[n..]);
        assert Word(s[..n]);
        forall k | 0 <= k < |Split(s)|
          ensures Word(Split(s)[k])
        {
          if k > 0 {
            assert Split(s)[k] == Split(s[n..])[k - 1];
          }
        }
      }
    }
  }

  /** `sep.join(ws)` */
  function Join(ws: seq<string>, sep: string): string {
    if |ws| == 0 then ""
    else if |ws| == 1 then ws[0]
    else ws[0] + sep + Join(ws[1..], sep)
  }

  /** Only plain spaces as whitespace, none leading, never two in a row.
      A prefix of a normalised name has this shape. */
  predicate Collapsed(s: string) {
    && (forall i | 0 <= i < |s| :: IsSpace(s[i]) ==> s[i] == ' ')
    && (|s| > 0 ==> s[0] != ' ')
    && (forall i, j | 0 <= i < |s| && 0 <= j < |s| && j == i + 1 :: s[i] == ' ' ==> s[j] != ' ')
  }

  /** The shape of `" ".join(s.split())`: collapsed and no trailing space. */
  predicate Normal(s: string) {
    Collapsed(s) && (|s| > 0 ==> s[|s| - 1] != ' ')
  }

  lemma CollapsedPrefix(s: string, k: nat)
    requires Collapsed(s) && k <= |s|
    ensures Collapsed(s[..k])
  {
    var p := s[..k];
    forall i | 0 <= i < |p| - 1
      ensures p[i] == ' ' ==> p[i + 1] != ' '
    {
      assert p[i] == s[i] && p[i + 1] == s[i + 1];
    }
  }

  /** Joining words with single spaces yields a normal text. */
  lemma {:induction false} JoinWordsNormal(ws: seq<string>)
    requires forall k | 0 <= k < |ws| :: Word(ws[k])
    ensures Normal(Join(ws, " "))
    decreases |ws|
  {
    if |ws| >= 2 {
      var rest := Join(ws[1..], " ");
      JoinWordsNormal(ws[1..]);
      var w := ws[0];
      var j := w + " " + rest;
      assert Join(ws, " ") == j;
      assert Word(ws[1]);
      assert rest != [] && rest[0] != ' ' by {
        if |ws[1..]| == 1 {
          assert rest == ws[1];
        } else {
          assert rest == ws[1] + " " + Join(ws[2..], " ");
          assert rest[0] == ws[1][0];
        }
      }
      forall i | 0 <= i < |j|
        ensures IsSpace(j[i]) ==> j[i] == ' '
      {
        if i < |w| {
          assert j[i] == w[i];
        } else if i > |w| {
          assert j[i] == rest[i - |w| - 1];
        }
      }
      forall i | 0 <= i < |j| - 1
        ensures j[i] == ' ' ==> j[i + 1] != ' '
      {
        if i < |w| - 1 {
          assert j[i] == w[i];
        } else if i == |w| - 1 {
          assert j[i] == w[i];
        } else if i == |w| {
          assert j[i + 1] == rest[0];
        } else {
          assert j[i] == rest[i - |w| - 1] && j[i + 1] == rest[i - |w|];
        }
      }
      assert j[0] == w[0];
      assert j[|j| - 1] == rest[|rest| - 1];
    } else if |ws| == 1 {
      assert Join(ws, " ") == ws[0];
    }
  }

  /** A suffix of a normal text that does not start with a space is normal. */
  lemma NormalSuffix(s: string, k: nat)
    requires Normal(s) && k < |s| && s[k] != ' '
    ensures Normal(s[k..])
  {
    var t := s[k..];
    forall i | 0 <= i < |t| - 1
      ensures t[i] == ' ' ==> t[i + 1] != ' '
    {
      assert t[i] == s[k + i] && t[i + 1] == s[k + i + 1];
    }
    forall i | 0 <= i < |t|
      ensures IsSpace(t[i]) ==> t[i] == ' '
    {
      assert t[i] == s[k + i];
    }
  }

  lemma JoinCons(w: string, ws: seq<string>, sep: string)
    requires |ws| >= 1
    ensures Join([w] + ws, sep) == w + sep + Join(ws, sep)
  {
    assert ([w] + ws)[1..] == ws;
  }

  /** A normal text that is more than one word: its first word, one space,
      and a normal remainder that itself splits into at least one word. */
  lemma SplitNormalStep(s: string) returns (n: nat, tail: string)
    requires Normal(s) && s != [] && WordLength(s) < |s|
    ensures n == WordLength(s) && tail == s[n + 1..]
    ensures s == s[..n] + " " + tail
    ensures tail != [] && Normal(tail) && |tail| < |s|
    ensures Split(s) == [s[..n]] + Split(tail) && Split(tail) != []
  {
    n := WordLength(s);
    tail := s[n + 1..];
    assert s[n] == ' ' && s[n + 1] != ' ';
    assert s == s[..n] + [s[n]] + tail;
    assert s[n..][1..] == tail;
    NormalSuffix(s, n + 1);
    assert !IsSpace(tail[0]);
  }

  /** A text without whitespace is one word. */
  lemma SplitSingleWord(s: string)
    requires s != [] && WordLength(s) == |s|
    ensures Split(s) == [s]
  {
    assert s[..|s|] == s && s[|s|..] == [];
  }

  /** Splitting and re-joining a normal text gives it back. */
  lemma {:induction false} SplitJoinNormal(s: string)
    requires Normal(s)
    ensures Join(Split(s), " ") == s
    decreases |s|
  {
    if s != [] {
      if WordLength(s) < |s| {
        var n, tail := SplitNormalStep(s);
        SplitJoinNormal(tail);
        JoinCons(s[..n], Split(tail), " ");
      } else {
        SplitSingleWord(s);
      }
    }
  }

  /** Stripping a normal text changes nothing. */
  lemma StripNormal(s: string)
    requires Normal(s)
    ensures Strip(s) == s
  {
    if s != [] {
      assert !IsSpace(s[0]) && !IsSpace(s[|s| - 1]);
    }
  }

  predicate IsDigit(c: char) {
    '0' <= c <= '9'
  }

  function DigitChar(d: nat): (c: char)
    requires d < 10
    ensures IsDigit(c)
  {
    (48 + d) as char
  }

  /** Decimal rendering of a non-negative integer, as `f"{i}"`. */
  function NatToString(n: nat): (r: string)
    ensures |r| >= 1
    ensures forall i | 0 <= i < |r| :: IsDigit(r[i])
  {
    if n < 10 then [DigitChar(n)] else NatToString(n / 10) + [DigitChar(n % 10)]
  }

  function Pow10(k: nat): (r: nat)
    ensures r >= 1
  {
    if k == 0 then 1 else 10 * Pow10(k - 1)
  }

  /** Distinct numbers have distinct renderings. */
  lemma {:induction false} NatToStringInjective(a: nat, b: nat)
    requires NatToString(a) == NatToString(b)
    ensures a == b
    decreases a
  {
    var ra, rb := NatToString(a), NatToString(b);
    if a < 10 && b < 10 {
      assert ra[0] == rb[0];
    } else if a >= 10 && b >= 10 {
      assert ra[|ra| - 1] == rb[|rb| - 1];
      assert a % 10 == b % 10;
      assert ra[..|ra| - 1] == NatToString(a / 10);
      assert rb[..|rb| - 1] == NatToString(b / 10);
      NatToStringInjective(a / 10, b / 10);
    }
  }

  /** A number below `10^k` takes at most `k` digits. */
  lemma {:induction false} NatToStringLength(n: nat, k: nat)
    requires 1 <= k && n < Pow10(k)
    ensures |NatToString(n)| <= k
    decreases k
  {
    if n >= 10 {
      assert k >= 2;
      assert n / 10 < Pow10(k - 1);
      NatToStringLength(n / 10, k - 1);
    }
  }
}
