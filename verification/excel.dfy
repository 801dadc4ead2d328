/** The spreadsheet export's pure parts (excel_utils.py): sheet names that
    Excel accepts and that do not clash, the "kind" text and the condition
    fill of an item line, and the rows one room's block occupies. */
module Excel {
  import opened Wrappers
  import opened Text
  import opened Models

  // ---------------------------------------------------------------------
  // Sheet names (`_safe_sheet_name`, `_unique_sheet_name`)
  // ---------------------------------------------------------------------

  /** The longest sheet name Excel accepts. */
  const MAX_SHEET_NAME: nat := 31

  /** The characters Excel refuses in a sheet name. */
  const BAD: seq<char> := [':', '\\', '/', '?', '*', '[', ']']

  /** The text has none of the refused characters. */
  predicate NoBad(s: string) {
    forall i | 0 <= i < |s| :: s[i] !in BAD
  }

  /** `name.replace(ch, " ")` */
  function ReplaceChar(s: string, ch: char): (r: string)
    ensures |r| == |s|
    ensures forall i | 0 <= i < |s| :: r[i] == (if s[i] == ch then ' ' else s[i])
  {
    if s == [] then [] else [if s[0] == ch then ' ' else s[0]] + ReplaceChar(s[1..], ch)
  }

  /** The loop `for ch in bad: name = name.replace(ch, " ")`. */
  function ReplaceEach(s: string, chars: seq<char>): string
    decreases |chars|
  {
    if chars == [] then s else ReplaceEach(ReplaceChar(s, chars[0]), chars[1..])
  }

  /** Replacing the characters one after another turns each of them into a
      space and keeps every other character: the space is not replaced. */
  lemma {:induction false} ReplaceEachMaps(s: string, chars: seq<char>)
    requires ' ' !in chars
    ensures |ReplaceEach(s, chars)| == |s|
    ensures forall i | 0 <= i < |s| :: ReplaceEach(s, chars)[i] == (if s[i] in chars then ' ' else s[i])
    decreases |chars|
  {
    if chars != [] {
      var t := ReplaceChar(s, chars[0]);
      ReplaceEachMaps(t, chars[1..]);
      forall i | 0 <= i < |s|
        ensures ReplaceEach(s, chars)[i] == (if s[i] in chars then ' ' else s[i])
      {
        assert s[i] in chars <==> s[i] == chars[0] || s[i] in chars[1..];
      }
    }
  }

  /** Every character of a word of `split()` comes from the split text. */
  lemma {:induction false} SplitFrom(s: string)
    ensures forall k, c | 0 <= k < |Split(s)| && c in Split(s)[k] :: c in s
    decreases |s|
  {
    if s != [] {
      if IsSpace(s[0]) {
        SplitFrom(s[1..]);
        assert forall c | c in s[1..] :: c in s;
      } else {
        var n := WordLength(s);
        SplitFrom(s[n..]);
        assert s == s[..n] + s[n..];
        forall k, c | 0 <= k < |Split(s)| && c in Split(s)[k] ensures c in s {
          if k == 0 {
            assert Split(s)[0] == s[..n];
            assert c in s[..n];
          } else {
            assert Split(s)[k] == Split(s[n..])[k - 1];
            assert c in s[n..];
          }
        }
      }
    }
  }

  /** Every character of `sep.join(ws)` comes from a word or the separator. */
  lemma {:induction false} JoinFrom(ws: seq<string>, sep: string)
    ensures forall c | c in Join(ws, sep) :: c in sep || exists k | 0 <= k < |ws| :: c in ws[k]
    decreases |ws|
  {
    if |ws| >= 2 {
      JoinFrom(ws[1..], sep);
      forall c | c in Join(ws, sep) ensures c in sep || exists k | 0 <= k < |ws| :: c in ws[k] {
        assert c in ws[0] || c in sep || c in Join(ws[1..], sep);
        if c in Join(ws[1..], sep) && c !in sep {
          var k :| 0 <= k < |ws[1..]| && c in ws[1..][k];
          assert c in ws[k + 1];
        }
      }
    } else if |ws| == 1 {
      assert c0: forall c | c in Join(ws, sep) :: c in ws[0];
    }
  }

  /** `" ".join(name.split()).strip()` after the replacements. */
  function Normalised(name: string): string {
    Strip(Join(Split(ReplaceEach(name, BAD)), " "))
  }

  /** The normalised name: single spaces between words, none at either
      end, none of the refused characters. */
  lemma NormalisedShape(name: string)
    ensures Normal(Normalised(name)) && NoBad(Normalised(name))
    ensures Normalised(name) == Join(Split(ReplaceEach(name, BAD)), " ")
  {
    var t := ReplaceEach(name, BAD);
    ReplaceEachMaps(name, BAD);
    var ws := Split(t);
    SplitWords(t);
    JoinWordsNormal(ws);
    StripNormal(Join(ws, " "));
    SplitFrom(t);
    JoinFrom(ws, " ");
    var n := Join(ws, " ");
    forall i | 0 <= i < |n| ensures n[i] !in BAD {
      var c := n[i];
      assert c in n;
      if c != ' ' {
        var k :| 0 <= k < |ws| && c in ws[k];
        assert c in t;
        var j :| 0 <= j < |t| && t[j] == c;
      }
    }
  }

  /** `_safe_sheet_name`: refused characters become spaces, whitespace runs
      collapse to one space, the ends are stripped, and the result is cut
      to 31 characters. The cut may leave a trailing space, so only the
      collapsed shape survives it. */
  function SafeSheetName(name: string): (r: string)
    ensures |r| <= MAX_SHEET_NAME
    ensures NoBad(r)
    ensures Collapsed(r)
  {
    var n := Normalised(name);
    NormalisedShape(name);
    if |n| > MAX_SHEET_NAME then
      CollapsedPrefix(n, MAX_SHEET_NAME);
      n[..MAX_SHEET_NAME]
    else n
  }

  /** A normalised name of at most 31 characters is returned whole, in
      normal form; a longer one is cut to its first 31 characters. */
  lemma SafeShort(name: string)
    ensures |Normalised(name)| <= MAX_SHEET_NAME ==>
      SafeSheetName(name) == Normalised(name) && Normal(SafeSheetName(name))
    ensures |Normalised(name)| > MAX_SHEET_NAME ==> SafeSheetName(name) == Normalised(name)[..MAX_SHEET_NAME]
  {
    NormalisedShape(name);
  }

  /** A name already in normal form without refused characters is its
      own normalisation. */
  lemma NormalisedNormal(s: string)
    requires Normal(s) && NoBad(s)
    ensures Normalised(s) == s
  {
    ReplaceEachMaps(s, BAD);
    assert ReplaceEach(s, BAD) == s;
    SplitJoinNormal(s);
    StripNormal(s);
  }

  /** A name already in safe form, no longer than 31 characters, is kept
      as it is. */
  lemma SafeFixed(s: string)
    requires Normal(s) && NoBad(s) && |s| <= MAX_SHEET_NAME
    ensures SafeSheetName(s) == s
  {
    NormalisedNormal(s);
  }

  /** The words of the name survive the normalisation unchanged, in order:
      splitting the normalised name gives the words of the name with the
      refused characters read as spaces. */
  lemma NormalisedWords(name: string)
    ensures Split(Normalised(name)) == Split(ReplaceEach(name, BAD))
  {
    NormalisedShape(name);
    SplitWords(ReplaceEach(name, BAD));
    SplitJoinWords(Split(ReplaceEach(name, BAD)));
  }

  /** The leading word of a word followed by whitespace is that word. */
  lemma {:induction false} WordLengthOf(w: string, rest: string)
    requires forall i | 0 <= i < |w| :: !IsSpace(w[i])
    requires rest == [] || IsSpace(rest[0])
    ensures WordLength(w + rest) == |w|
    decreases |w|
  {
    if w != [] {
      assert (w + rest)[1..] == w[1..] + rest;
      WordLengthOf(w[1..], rest);
    }
  }

  /** Splitting words joined by single spaces gives the words back. */
  lemma {:induction false} SplitJoinWords(ws: seq<string>)
    requires forall k | 0 <= k < |ws| :: Word(ws[k])
    ensures Split(Join(ws, " ")) == ws
    decreases |ws|
  {
    if |ws| == 1 {
      WordLengthOf(ws[0], []);
      SplitSingleWord(ws[0]);
    } else if |ws| >= 2 {
      var rest := Join(ws[1..], " ");
      var j := ws[0] + " " + rest;
      SplitJoinWords(ws[1..]);
      WordLengthOf(ws[0], " " + rest);
      assert ws[0] + (" " + rest) == j;
      assert j[..|ws[0]|] == ws[0];
      assert j[|ws[0]|..] == " " + rest;
      assert Split(" " + rest) == Split(rest) by {
        assert (" " + rest)[1..] == rest;
      }
      assert ws == [ws[0]] + ws[1..];
    }
  }

  /** A word, a space and a letter normalise to themselves. */
  lemma NormalisedTwoWords(w: string)
    requires Word(w) && NoBad(w)
    ensures Normalised(w + " b") == w + " b"
  {
    var s := w + " b";
    ReplaceEachMaps(s, BAD);
    assert ReplaceEach(s, BAD) == s;
    SplitJoinWords([w, "b"]);
    assert Join([w, "b"], " ") == s;
    JoinWordsNormal([w, "b"]);
    StripNormal(s);
  }

  /** A word followed by a space normalises to the word. */
  lemma NormalisedTrailingSpace(w: string)
    requires Word(w) && NoBad(w)
    ensures Normalised(w + " ") == w
  {
    var t := w + " ";
    ReplaceEachMaps(t, BAD);
    assert ReplaceEach(t, BAD) == t;
    WordLengthOf(w, " ");
    assert t[..|w|] == w && t[|w|..] == " ";
    assert Split(" ") == [];
    assert Split(t) == [w];
    StripNormal(w);
  }

  /** Cutting can leave a trailing space, and then a second pass strips
      it: `_safe_sheet_name` is not idempotent. Thirty letters, a space and
      one more letter make a 32-character name whose cut keeps the space. */
  lemma SafeNotIdempotent(w: string)
    requires |w| == 30 && Word(w) && NoBad(w)
    ensures SafeSheetName(w + " b") == w + " "
    ensures SafeSheetName(SafeSheetName(w + " b")) == w
  {
    NormalisedTwoWords(w);
    assert (w + " b")[..MAX_SHEET_NAME] == w + " ";
    NormalisedTrailingSpace(w);
  }

  /** The suffix `(i)` of the `i`-th candidate. */
  function Suffix(i: nat): string {
    "(" + NatToString(i) + ")"
  }

  /** Python's `s[:cut]`: a negative `cut` counts from the end. */
  function Prefix(s: string, cut: int): (r: string)
    ensures |r| <= |s|
  {
    if cut >= 0 then (if cut <= |s| then s[..cut] else s)
    else if |s| + cut >= 0 then s[..|s| + cut] else []
  }

  /** `_safe_sheet_name(name[:cut] + suffix)` with `cut = 31 - len(suffix)`. */
  function Candidate(name: string, i: nat): string {
    SafeSheetName(Prefix(name, MAX_SHEET_NAME - |Suffix(i)|) + Suffix(i))
  }

  /** A candidate's text before its suffix is safe already: the candidate
      is that prefix of the name followed by `(i)`, untouched by the second
      normalisation, as long as the suffix fits in 31 characters. */
  lemma CandidateShape(name: string, i: nat)
    requires Collapsed(name) && NoBad(name) && |name| <= MAX_SHEET_NAME
    requires |Suffix(i)| <= MAX_SHEET_NAME
    ensures Candidate(name, i) == Prefix(name, MAX_SHEET_NAME - |Suffix(i)|) + Suffix(i)
  {
    var cut := MAX_SHEET_NAME - |Suffix(i)|;
    var p := Prefix(name, cut);
    var d := NatToString(i);
    var suffix := Suffix(i);
    CollapsedPrefix(name, |p|);
    assert p == name[..|p|];
    var c := p + suffix;
    assert forall k | 0 <= k < |suffix| :: suffix[k] == '(' || suffix[k] == ')' || IsDigit(suffix[k]) by {
      assert forall k | 1 <= k < |suffix| - 1 :: suffix[k] == d[k - 1];
    }
    assert forall k | 0 <= k < |c| :: c[k] == (if k < |p| then p[k] else suffix[k - |p|]);
    assert Normal(c);
    assert NoBad(c);
    SafeFixed(c);
  }

  /** The position of the last `ch` in `s`, or -1. */
  function LastIndex(s: string, ch: char): (k: int)
    ensures -1 <= k < |s|
    ensures k >= 0 ==> s[k] == ch
  {
    if s == [] then -1
    else if s[|s| - 1] == ch then |s| - 1
    else LastIndex(s[..|s| - 1], ch)
  }

  /** The last `ch` of `p + [ch] + d` is the one after `p` when `d` has
      none. */
  lemma {:induction false} LastIndexAfter(p: string, ch: char, d: string)
    requires ch !in d
    ensures LastIndex(p + [ch] + d, ch) == |p|
    decreases |d|
  {
    var s := p + [ch] + d;
    if d == [] {
      assert s[|s| - 1] == ch;
    } else {
      assert s[|s| - 1] == d[|d| - 1];
      assert s[..|s| - 1] == p + [ch] + d[..|d| - 1];
      LastIndexAfter(p, ch, d[..|d| - 1]);
    }
  }

  /** The last `(` of a candidate starts its suffix, so different numbers
      give different candidates whatever the prefixes. */
  lemma SuffixDistinct(p1: string, i: nat, p2: string, j: nat)
    requires p1 + Suffix(i) == p2 + Suffix(j)
    ensures i == j
  {
    var d1, d2 := NatToString(i), NatToString(j);
    var c := p1 + Suffix(i);
    var body := c[..|c| - 1];
    assert body == p1 + "(" + d1 && body == p2 + "(" + d2;
    assert '(' !in d1 && '(' !in d2;
    LastIndexAfter(p1, '(', d1);
    LastIndexAfter(p2, '(', d2);
    assert d1 == body[|p1| + 1..] == d2;
    NatToStringInjective(i, j);
  }

  /** Below `10^29` different numbers give different candidates for the
      same safe name. */
  lemma CandidatesDistinct(name: string, k: nat, i: nat)
    requires Collapsed(name) && NoBad(name) && |name| <= MAX_SHEET_NAME
    requires k < i < Pow10(29)
    ensures Candidate(name, k) != Candidate(name, i)
  {
    NatToStringLength(i, 29);
    NatToStringLength(k, 29);
    CandidateShape(name, i);
    CandidateShape(name, k);
    if Candidate(name, k) == Candidate(name, i) {
      SuffixDistinct(Prefix(name, MAX_SHEET_NAME - |Suffix(k)|), k, Prefix(name, MAX_SHEET_NAME - |Suffix(i)|), i);
    }
  }

  /** `i` is the first number from 2 whose candidate is free. */
  predicate FirstFree(taken: set<string>, name: string, i: nat) {
    && 2 <= i
    && Candidate(name, i) !in taken
    && forall k | 2 <= k < i :: Candidate(name, k) in taken
  }

  /** `_unique_sheet_name`: the safe name when it is free, otherwise the
      first free candidate `name[:cut] + "(i)"` from `i = 2` on. Distinct
      numbers give distinct candidates, so the loop ends within
      `|taken| + 1` rounds; the bound on `|taken|` keeps every suffix within
      31 characters. */
  method UniqueSheetName(taken: set<string>, base: string) returns (sheet: string)
    requires |taken| + 2 < Pow10(29)
    ensures sheet !in taken
    ensures |sheet| <= MAX_SHEET_NAME && NoBad(sheet)
    ensures SafeSheetName(base) !in taken ==> sheet == SafeSheetName(base)
    ensures SafeSheetName(base) in taken ==>
      exists i :: FirstFree(taken, SafeSheetName(base), i) && sheet == Candidate(SafeSheetName(base), i)
  {
    var name := SafeSheetName(base);
    if name !in taken {
      return name;
    }
    var i;
    i, sheet := FirstFreeCandidate(taken, name);
  }

  /** The `while True` loop of `_unique_sheet_name`: the first number from
      2 whose candidate is free, and that candidate. */
  method FirstFreeCandidate(taken: set<string>, name: string) returns (i: nat, candidate: string)
    requires Collapsed(name) && NoBad(name) && |name| <= MAX_SHEET_NAME
    requires |taken| + 2 < Pow10(29)
    ensures FirstFree(taken, name, i) && candidate == Candidate(name, i)
    ensures candidate !in taken && |candidate| <= MAX_SHEET_NAME && NoBad(candidate)
  {
    i := 2;
    while true
      invariant 2 <= i <= |taken| + 2
      invariant forall k | 2 <= k < i :: Candidate(name, k) in taken
      decreases |taken| + 2 - i
    {
      var suffix := Suffix(i);
      var cut := MAX_SHEET_NAME - |suffix|;
      candidate := SafeSheetName(Prefix(name, cut) + suffix);
      assert candidate == Candidate(name, i);
      if candidate !in taken {
        return;
      }
      OneMoreTaken(name, taken, i);
      i := i + 1;
    }
  }

  /** The loop step: one more taken candidate, and still no more tried
      than there are taken names. */
  lemma OneMoreTaken(name: string, taken: set<string>, i: nat)
    requires Collapsed(name) && NoBad(name) && |name| <= MAX_SHEET_NAME
    requires 2 <= i < Pow10(29)
    requires forall k | 2 <= k < i :: Candidate(name, k) in taken
    requires Candidate(name, i) in taken
    ensures forall k | 2 <= k < i + 1 :: Candidate(name, k) in taken
    ensures i + 1 <= |taken| + 2
  {
    var cand := (k: nat) => Candidate(name, k);
    forall a, b | 2 <= a < b < i + 1 ensures cand(a) != cand(b) {
      CandidatesDistinct(name, a, b);
    }
    forall k | 2 <= k < i + 1 ensures cand(k) in taken {
    }
    Pigeonhole(cand, taken, i + 1);
  }

  /** The values `cand(2)` to `cand(i - 1)`. */
  function Tried(cand: nat -> string, i: nat): set<string> {
    if i <= 2 then {} else Tried(cand, i - 1) + {cand(i - 1)}
  }

  /** A value is not among those numbered below it when the numbering is
      injective. */
  lemma {:induction false} NotTriedYet(cand: nat -> string, j: nat, i: nat)
    requires forall a, b | 2 <= a < b <= j :: cand(a) != cand(b)
    requires i <= j
    ensures cand(j) !in Tried(cand, i)
  {
    if i > 2 {
      NotTriedYet(cand, j, i - 1);
    }
  }

  /** There are `i - 2` tried values, all of them taken when each number
      below `i` was. */
  lemma {:induction false} TriedSize(cand: nat -> string, taken: set<string>, i: nat)
    requires 2 <= i
    requires forall a, b | 2 <= a < b < i :: cand(a) != cand(b)
    requires forall k | 2 <= k < i :: cand(k) in taken
    ensures |Tried(cand, i)| == i - 2 && Tried(cand, i) <= taken
  {
    if i > 2 {
      TriedSize(cand, taken, i - 1);
      NotTriedYet(cand, i - 1, i - 1);
    }
  }

  /** When the distinct values numbered 2 up to `i - 1` are all taken,
      there are at least `i - 2` taken names. */
  lemma Pigeonhole(cand: nat -> string, taken: set<string>, i: nat)
    requires 2 <= i
    requires forall a, b | 2 <= a < b < i :: cand(a) != cand(b)
    requires forall k | 2 <= k < i :: cand(k) in taken
    ensures i - 2 <= |taken|
  {
    TriedSize(cand, taken, i);
    SubsetSize(Tried(cand, i), taken);
  }

  /** A subset is no larger than its superset. */
  lemma {:induction false} SubsetSize<T>(a: set<T>, b: set<T>)
    requires a <= b
    ensures |a| <= |b|
    decreases |a|
  {
    if a != {} {
      var x :| x in a;
      SubsetSize(a - {x}, b - {x});
    }
  }

  // ---------------------------------------------------------------------
  // One item line: the kind text and the condition fill
  // ---------------------------------------------------------------------

  /** The "Tipo" cell: brand and material, each stripped, the non-blank
      ones joined by " - ", or "-" when both are blank. */
  function TipoText(marca: Option<string>, material: Option<string>): (r: string)
    ensures r != []
  {
    KindText(Strip(OrEmpty(marca)), Strip(OrEmpty(material)))
  }

  /** The kind text of the stripped brand `m` and material `t`. */
  function KindText(m: string, t: string): (r: string)
    ensures r != []
  {
    var partes := (if m != [] then [m] else []) + (if t != [] then [t] else []);
    if partes != [] then JoinParts(m, t, partes) else "-"
  }

  /** `" - ".join(partes)` for the at most two parts of the kind text. */
  function JoinParts(m: string, t: string, partes: seq<string>): (r: string)
    requires partes == (if m != [] then [m] else []) + (if t != [] then [t] else [])
    requires partes != []
    ensures r == Join(partes, " - ")
    ensures r == (if m == [] then t else if t == [] then m else m + " - " + t)
  {
    if |partes| == 2 then
      JoinCons(m, [t], " - ");
      Join(partes, " - ")
    else
      Join(partes, " - ")
  }

  /** The kind text of two parts, case by case: "-" when both are blank,
      otherwise the non-blank ones joined; trimmed parts give a trimmed
      text. */
  lemma KindTextCases(m: string, t: string)
    requires Trimmed(m) && Trimmed(t)
    ensures m == [] && t == [] ==> KindText(m, t) == "-"
    ensures m != [] && t == [] ==> KindText(m, t) == m
    ensures m == [] && t != [] ==> KindText(m, t) == t
    ensures m != [] && t != [] ==> KindText(m, t) == m + " - " + t
    ensures Trimmed(KindText(m, t))
  {
    if m != [] && t != [] {
      var r := m + " - " + t;
      assert r[0] == m[0];
      assert r[|r| - 1] == t[|t| - 1];
    }
  }

  /** The kind text shows each non-blank part in order, stripped, and "-"
      only when both are blank; it neither starts nor ends with
      whitespace. */
  lemma TipoTextParts(marca: Option<string>, material: Option<string>)
    ensures var m := Strip(OrEmpty(marca));
            var t := Strip(OrEmpty(material));
            var r := TipoText(marca, material);
            && (m == [] && t == [] ==> r == "-")
            && (m != [] && t == [] ==> r == m)
            && (m == [] && t != [] ==> r == t)
            && (m != [] && t != [] ==> r == m + " - " + t)
            && !IsSpace(r[0]) && !IsSpace(r[|r| - 1])
  {
    var m, t := Strip(OrEmpty(marca)), Strip(OrEmpty(material));
    StripEnds(OrEmpty(marca));
    StripEnds(OrEmpty(material));
    KindTextCases(m, t);
    assert TipoText(marca, material) == KindText(m, t);
  }

  /** The fills of the "Estado" cell (`FILL_ESTADO_*`). */
  const FILL_BUENO: string := "C6EFCE"
  const FILL_PENDIENTE: string := "FFF2CC"
  const FILL_MALO: string := "F9CBAD"

  /** The fill chosen by the displayed condition label; any other label
      leaves the cell unfilled. */
  function EstadoFill(shown: string): (fill: Option<string>)
    ensures fill.Some? <==> shown in {"Bueno", "Pendiente", "Malo"}
  {
    if shown == "Bueno" then Some(FILL_BUENO)
    else if shown == "Pendiente" then Some(FILL_PENDIENTE)
    else if shown == "Malo" then Some(FILL_MALO)
    else None
  }

  /** For a stored condition (the column holds one character) the cell is
      filled exactly when the code is one of the three choices, each with
      its own colour. */
  lemma FillByCode(e: string)
    requires |e| <= 1
    ensures EstadoFill(EstadoDisplay(e)).Some? <==> ValidEstado(e)
    ensures e == BUENO ==> EstadoFill(EstadoDisplay(e)) == Some(FILL_BUENO)
    ensures e == PENDIENTE ==> EstadoFill(EstadoDisplay(e)) == Some(FILL_PENDIENTE)
    ensures e == MALO ==> EstadoFill(EstadoDisplay(e)) == Some(FILL_MALO)
  {
    if !ValidEstado(e) {
      assert EstadoDisplay(e) == e;
    }
  }

  /** Different stored conditions get different fills. */
  lemma FillsDistinct(e1: string, e2: string)
    requires ValidEstado(e1) && ValidEstado(e2) && e1 != e2
    ensures EstadoFill(EstadoDisplay(e1)) != EstadoFill(EstadoDisplay(e2))
  {
  }

  // ---------------------------------------------------------------------
  // One room's block (`_write_lugar_block`)
  // ---------------------------------------------------------------------

  /** The header row of a block. */
  const HEADERS: seq<string> := ["Objeto", "Tipo", "Cantidad", "Estado", "Detalle", "Fecha"]
  /** The placeholder of a room without items. */
  const SIN_OBJETOS: string := "Sin objetos registrados"

  /** What one worksheet row of a block holds. */
  datatype Line =
    | Title(text: string)
    | Headers(cells: seq<string>)
    | ItemLine(objeto: string, tipo: string, cantidad: int, estado: string, fill: Option<string>, detalle: string, fecha: Date)
    | Placeholder(text: string)

  /** The rows a block writes from `start` on, and the row it returns. */
  datatype Block = Block(lines: seq<Line>, next: int)

  /** The item's kind and object can be read: neither reference is NULL
      nor dangling. */
  predicate Printable(s: Store, item: ObjetoLugar) {
    && item.tipoDeObjeto.Some?
    && item.tipoDeObjeto.value in s.tiposObjeto
    && s.tiposObjeto[item.tipoDeObjeto.value].objeto in s.objetos
  }

  /** One item's row: object name, kind text, quantity, displayed
      condition with its fill, the detail or "-" when empty, the date.
      Reading the object name through a missing kind raises
      `AttributeError`. */
  function LineOf(s: Store, item: ObjetoLugar): (r: Result<Line, Fault>)
    ensures r.Ok? <==> Printable(s, item)
    ensures r.Err? ==> r.error == AttributeError
    ensures r.Ok? ==> r.value.ItemLine? && r.value.cantidad == item.cantidad && r.value.fecha == item.fecha
    ensures r.Ok? ==> r.value.detalle != [] && (item.detalle != [] ==> r.value.detalle == item.detalle)
    ensures r.Ok? ==> r.value.fill.Some? ==> r.value.fill == EstadoFill(EstadoDisplay(item.estado))
  {
    if !Printable(s, item) then Err(AttributeError)
    else
      var tipo := s.tiposObjeto[item.tipoDeObjeto.value];
      var shown := EstadoDisplay(item.estado);
      Ok(ItemLine(
        s.objetos[tipo.objeto].nombreDelObjeto,
        TipoText(tipo.marca, tipo.material),
        item.cantidad,
        shown,
        EstadoFill(shown),
        if item.detalle == "" then "-" else item.detalle,
        item.fecha))
  }

  /** A readable item's row, cell by cell: the name of the object its kind
      belongs to, the kind's brand and material text, the quantity, the
      displayed condition with the fill that label gets, the detail or "-"
      when it is empty, and the date. */
  lemma LineOfCells(s: Store, item: ObjetoLugar)
    requires Printable(s, item)
    ensures var kind := s.tiposObjeto[item.tipoDeObjeto.value];
      var shown := EstadoDisplay(item.estado);
      LineOf(s, item) == Ok(ItemLine(s.objetos[kind.objeto].nombreDelObjeto, TipoText(kind.marca, kind.material),
        item.cantidad, shown, EstadoFill(shown), if item.detalle == [] then "-" else item.detalle, item.fecha))
  {
  }

  /** The loop over the room's items: one row each, in order; the first
      unreadable item stops the export. */
  function ItemLines(s: Store, items: seq<ObjetoLugar>): (r: Result<seq<Line>, Fault>)
    ensures r.Ok? <==> forall i | 0 <= i < |items| :: Printable(s, items[i])
    ensures r.Err? ==> r.error == AttributeError
    ensures r.Ok? ==> |r.value| == |items| && forall i | 0 <= i < |items| :: LineOf(s, items[i]) == Ok(r.value[i])
  {
    if items == [] then Ok([])
    else
      var first := LineOf(s, items[0]);
      var rest := ItemLines(s, items[1..]);
      if first.Err? then Err(first.error)
      else if rest.Err? then
        ghost var j :| 0 <= j < |items| - 1 && !Printable(s, items[1..][j]);
        assert items[j + 1] == items[1..][j];
        Err(rest.error)
      else
        ItemLinesCons(s, items, first.value, rest.value);
        Ok([first.value] + rest.value)
  }

  /** The step of `ItemLines`: the first row followed by the rest. */
  lemma ItemLinesCons(s: Store, items: seq<ObjetoLugar>, first: Line, rest: seq<Line>)
    requires items != [] && LineOf(s, items[0]) == Ok(first)
    requires |rest| == |items| - 1
    requires forall i | 0 <= i < |items| - 1 :: LineOf(s, items[1..][i]) == Ok(rest[i])
    ensures forall i | 0 <= i < |items| :: LineOf(s, items[i]) == Ok(([first] + rest)[i])
  {
    forall i | 0 <= i < |items|
      ensures LineOf(s, items[i]) == Ok(([first] + rest)[i])
    {
      if i > 0 {
        assert items[i] == items[1..][i - 1];
        assert ([first] + rest)[i] == rest[i - 1];
      }
    }
  }

  /** `_write_lugar_block`: a title row with the room's name, the header
      row, one row per item or a single placeholder row, and then one blank
      row; the result is the row after the blank one, so a block of `n`
      items takes `3 + max(n, 1)` rows. */
  function WriteLugarBlock(s: Store, start: int, lugar: Lugar, items: seq<ObjetoLugar>): (r: Result<Block, Fault>)
    ensures r.Ok? <==> forall i | 0 <= i < |items| :: Printable(s, items[i])
    ensures r.Err? ==> r.error == AttributeError
    ensures r.Ok? ==> r.value.next == start + 3 + (if |items| > 1 then |items| else 1)
    ensures r.Ok? ==> r.value.next == start + |r.value.lines| + 1
    ensures r.Ok? ==> r.value.lines[0] == Title(lugar.nombreDelLugar) && r.value.lines[1] == Headers(HEADERS)
    ensures r.Ok? && items == [] ==> r.value.lines[2] == Placeholder(SIN_OBJETOS)
    ensures r.Ok? ==> forall k | 0 <= k < |items| :: LineOf(s, items[k]) == Ok(r.value.lines[2 + k])
  {
    var hr := start + 1;
    var rows :- ItemLines(s, items);
    var row := hr + 1 + |items|;
    if |items| == 0 then
      Ok(Block([Title(lugar.nombreDelLugar), Headers(HEADERS), Placeholder(SIN_OBJETOS)], row + 1 + 1))
    else
      Ok(Block([Title(lugar.nombreDelLugar), Headers(HEADERS)] + rows, row + 1))
  }

  /** In a database that keeps its declared constraints, a block fails
      only on an item whose kind is NULL. */
  lemma BlockFailsOnlyOnNullKind(s: Store, start: int, lugar: Lugar, items: seq<ObjetoLugar>)
    requires Valid(s)
    requires forall i | 0 <= i < |items| :: items[i] in s.items.Values
    ensures WriteLugarBlock(s, start, lugar, items).Err? <==>
      exists i | 0 <= i < |items| :: items[i].tipoDeObjeto.None?
  {
    forall i | 0 <= i < |items| ensures Printable(s, items[i]) <==> items[i].tipoDeObjeto.Some? {
      assert items[i] in s.items.Values;
      var k :| k in s.items && s.items[k] == items[i];
      if items[i].tipoDeObjeto.Some? {
        assert items[i].tipoDeObjeto.value in s.tiposObjeto;
      }
    }
  }

  /** Consecutive blocks: the next block starts where the previous one's
      blank row ends, so `m` blocks starting at `start` end at `start` plus
      the rows of each. */
  lemma BlocksChain(s: Store, start: int, l1: Lugar, a: seq<ObjetoLugar>, l2: Lugar, b: seq<ObjetoLugar>)
    requires WriteLugarBlock(s, start, l1, a).Ok?
    requires WriteLugarBlock(s, WriteLugarBlock(s, start, l1, a).value.next, l2, b).Ok?
    ensures WriteLugarBlock(s, WriteLugarBlock(s, start, l1, a).value.next, l2, b).value.next
      == start + 6 + (if |a| > 1 then |a| else 1) + (if |b| > 1 then |b| else 1)
  {
  }
}
