/**
 * The secondary-structure reader (`parse_ss` in create_restraints.py): each
 * fixed-column DSSP line is recognised by position, its residue-number field
 * is stripped, and its one-letter structure code is reduced to one of four
 * coarse classes, stored under the key (residue number text, chain).
 */
module SecondaryStructure {

  /** The coarse classes 'H', 'E', 'T' and 'C' of the source. */
  datatype SsClass = Helix | Strand | Turn | Coil

  /** The dictionary key: the stripped residue-number text and the chain character. */
  datatype SsKey = SsKey(residue: string, chain: char)

  type SsMap = map<SsKey, SsClass>

  // ---------------------------------------------------------------------------
  // Character classes of the line pattern

  predicate IsDigitOrSpace(c: char) { '0' <= c <= '9' || c == ' ' }

  predicate IsUpper(c: char) { 'A' <= c <= 'Z' }

  predicate IsUpperOrSpace(c: char) { IsUpper(c) || c == ' ' }

  /** The codes the pattern admits in the structure-code column. */
  predicate IsStructureCode(c: char) { c in "HBEGITSP " }

  /** Python's `str.isspace`: the characters `str.strip()` removes. */
  predicate IsWhitespace(c: char) {
    || c == '\t' || c == '\n' || c == '\U{0B}' || c == '\U{0C}' || c == '\r'
    || ('\U{1C}' <= c <= '\U{1F}') || c == ' ' || c == '\U{85}' || c == '\U{A0}'
    || c == '\U{1680}' || ('\U{2000}' <= c <= '\U{200A}') || c == '\U{2028}'
    || c == '\U{2029}' || c == '\U{202F}' || c == '\U{205F}' || c == '\U{3000}'
  }

  // ---------------------------------------------------------------------------
  // str.strip()

  /** Drops leading whitespace (see TrimStartSpec). */
  function TrimStart(s: string): string {
    if s != [] && IsWhitespace(s[0]) then TrimStart(s[1..]) else s
  }

  /** Drops trailing whitespace (see TrimEndSpec). */
  function TrimEnd(s: string): string {
    if s != [] && IsWhitespace(s[|s| - 1]) then TrimEnd(s[..|s| - 1]) else s
  }

  /** TrimStart keeps the longest suffix of `s` that does not start with whitespace. */
  lemma {:induction false} TrimStartSpec(s: string)
    ensures var r := TrimStart(s);
            && |r| <= |s| && r == s[|s| - |r|..]
            && (forall k :: 0 <= k < |s| - |r| ==> IsWhitespace(s[k]))
            && (r == [] || !IsWhitespace(r[0]))
  {
    if s != [] && IsWhitespace(s[0]) {
      var t := s[1..];
      TrimStartSpec(t);
      var r := TrimStart(t);
      assert t[|t| - |r|..] == s[|s| - |r|..];
      forall k | 0 < k < |s| - |r|
        ensures IsWhitespace(s[k])
      {
        assert s[k] == t[k - 1];
      }
    }
  }

  /** TrimEnd keeps the longest prefix of `s` that does not end with whitespace. */
  lemma {:induction false} TrimEndSpec(s: string)
    ensures var r := TrimEnd(s);
            && |r| <= |s| && r == s[..|r|]
            && (forall k :: |r| <= k < |s| ==> IsWhitespace(s[k]))
            && (r == [] || !IsWhitespace(r[|r| - 1]))
  {
    if s != [] && IsWhitespace(s[|s| - 1]) {
      TrimEndSpec(s[..|s| - 1]);
    }
  }

  /** `r` is the part of `s` from position `a` on, with only whitespace before and after it. */
  predicate IsStrippedAt(s: string, a: int, r: string) {
    && 0 <= a <= |s| - |r| && r == s[a..a + |r|]
    && (forall k :: 0 <= k < a ==> IsWhitespace(s[k]))
    && (forall k :: a + |r| <= k < |s| ==> IsWhitespace(s[k]))
  }

  /** `str.strip()`: whitespace removed from both ends (see StripRemovesOnlyEnds). */
  function Strip(s: string): (r: string)
    ensures r == [] || (!IsWhitespace(r[0]) && !IsWhitespace(r[|r| - 1]))
  {
    TrimStartSpec(s);
    TrimEndSpec(TrimStart(s));
    TrimEnd(TrimStart(s))
  }

  /** What `Strip` keeps is one contiguous part of `s`, with only whitespace cut off around it. */
  lemma StripRemovesOnlyEnds(s: string)
    ensures exists a :: IsStrippedAt(s, a, Strip(s))
  {
    var t := TrimStart(s);
    TrimStartSpec(s);
    TrimEndSpec(t);
    TrimmedIsStripped(s, t, TrimEnd(t));
    assert IsStrippedAt(s, |s| - |t|, Strip(s));
  }

  /** Cutting whitespace off the front of `s` and then off the back of what is left strips `s`. */
  lemma TrimmedIsStripped(s: string, t: string, r: string)
    requires |t| <= |s| && t == s[|s| - |t|..]
    requires forall k :: 0 <= k < |s| - |t| ==> IsWhitespace(s[k])
    requires |r| <= |t| && r == t[..|r|]
    requires forall k :: |r| <= k < |t| ==> IsWhitespace(t[k])
    ensures IsStrippedAt(s, |s| - |t|, r)
  {
    var a := |s| - |t|;
    assert r == s[a..][..|r|];
    forall k | a + |r| <= k < |s|
      ensures IsWhitespace(s[k])
    {
      assert s[k] == t[k - a];
    }
  }

  // ---------------------------------------------------------------------------
  // One line

  /**
   * The line pattern `^([0-9 ]{5}) ([0-9 ]{4}.)([A-Z ]) ([A-Z])  ([HBEGITSP ])(.*)$`
   * as fixed positions: columns 0-4 sequential number, 5 blank, 6-10 residue
   * number (four digits or blanks, then any character but a newline),
   * 11 chain, 12 blank, 13 amino acid, 14-15 blank, 16 structure code, and a
   * free tail. `.` excludes '\n', and `$` also matches before one final '\n'.
   */
  predicate MatchesDsspLine(line: string) {
    && |line| >= 17
    && (forall k :: 0 <= k < 5 ==> IsDigitOrSpace(line[k]))
    && line[5] == ' '
    && (forall k :: 6 <= k < 10 ==> IsDigitOrSpace(line[k]))
    && line[10] != '\n'
    && IsUpperOrSpace(line[11])
    && line[12] == ' '
    && IsUpper(line[13])
    && line[14] == ' ' && line[15] == ' '
    && IsStructureCode(line[16])
    && (forall k :: 17 <= k < |line| - 1 ==> line[k] != '\n')
  }

  /** Group 2 stripped, and group 3. */
  function KeyOf(line: string): SsKey
    requires |line| >= 12
  {
    SsKey(Strip(line[6..11]), line[11])
  }

  /** The code-to-class table: HGIP to helix, BE to strand, T to turn, anything else to coil. */
  function ClassOf(code: char): SsClass {
    if code in "HGIP" then Helix
    else if code in "BE" then Strand
    else if code == 'T' then Turn
    else Coil
  }

  /** Does `line` match and carry key `k`? */
  predicate Writes(line: string, k: SsKey) {
    MatchesDsspLine(line) && KeyOf(line) == k
  }

  /** The effect of one line on the dictionary. */
  function ApplyLine(sec: SsMap, line: string): SsMap {
    if MatchesDsspLine(line) then sec[KeyOf(line) := ClassOf(line[16])] else sec
  }

  /** The dictionary after reading `lines` in order. */
  function SecondaryStructureOf(lines: seq<string>): SsMap {
    if lines == [] then map[]
    else ApplyLine(SecondaryStructureOf(lines[..|lines| - 1]), lines[|lines| - 1])
  }

  /** `parse_ss` over the lines of the file, updating one dictionary line by line. */
  method ParseSecondaryStructure(lines: seq<string>) returns (sec: SsMap)
    ensures sec == SecondaryStructureOf(lines)
  {
    sec := map[];
    var n := 0;
    while n < |lines|
      invariant 0 <= n <= |lines|
      invariant sec == SecondaryStructureOf(lines[..n])
    {
      var line := lines[n];
      if MatchesDsspLine(line) {
        sec := sec[KeyOf(line) := ClassOf(line[16])];
      }
      assert lines[..n + 1][..n] == lines[..n];
      n := n + 1;
    }
    assert lines[..n] == lines;
  }

  // ---------------------------------------------------------------------------
  // Properties

  /** Among the codes the pattern admits, exactly 'S' and blank fall through to coil. */
  lemma CoilCodes(code: char)
    requires IsStructureCode(code)
    ensures ClassOf(code) == Coil <==> code == 'S' || code == ' '
  {
  }

  /** A matching line puts its key in the dictionary, and no later line removes it. */
  lemma {:induction false} WrittenKeyPresent(lines: seq<string>, n: nat, k: SsKey)
    requires n < |lines| && Writes(lines[n], k)
    ensures k in SecondaryStructureOf(lines)
  {
    if n < |lines| - 1 {
      WrittenKeyPresent(lines[..|lines| - 1], n, k);
    }
  }

  /** Every key in the dictionary was put there by some matching line. */
  lemma {:induction false} PresentKeyWritten(lines: seq<string>, k: SsKey) returns (n: nat)
    requires k in SecondaryStructureOf(lines)
    ensures n < |lines| && Writes(lines[n], k)
  {
    var init := lines[..|lines| - 1];
    if Writes(lines[|lines| - 1], k) {
      n := |lines| - 1;
    } else {
      n := PresentKeyWritten(init, k);
      assert lines[n] == init[n];
    }
  }

  /** A key is in the dictionary exactly when some matching line carries it. */
  lemma SecondaryStructureKeys(lines: seq<string>, k: SsKey)
    ensures k in SecondaryStructureOf(lines) <==> exists n :: 0 <= n < |lines| && Writes(lines[n], k)
  {
    if k in SecondaryStructureOf(lines) {
      var n := PresentKeyWritten(lines, k);
    }
    if n :| 0 <= n < |lines| && Writes(lines[n], k) {
      WrittenKeyPresent(lines, n, k);
    }
  }

  /** The last matching line with a given key decides its class; earlier ones are overwritten. */
  lemma {:induction false} SecondaryStructureLastWins(lines: seq<string>, n: nat, k: SsKey)
    requires n < |lines| && Writes(lines[n], k)
    requires forall m :: n < m < |lines| ==> !Writes(lines[m], k)
    ensures k in SecondaryStructureOf(lines)
    ensures SecondaryStructureOf(lines)[k] == ClassOf(lines[n][16])
  {
    var init, last := lines[..|lines| - 1], lines[|lines| - 1];
    var before := SecondaryStructureOf(init);
    assert SecondaryStructureOf(lines) == ApplyLine(before, last);
    if n < |lines| - 1 {
      forall m | n < m < |init|
        ensures !Writes(init[m], k)
      {
        assert init[m] == lines[m];
      }
      assert init[n] == lines[n];
      SecondaryStructureLastWins(init, n, k);
      assert !Writes(last, k);
      assert MatchesDsspLine(last) ==> KeyOf(last) != k;
    }
  }

  /** The lines that match the pattern, in order. */
  function MatchingLines(lines: seq<string>): (r: seq<string>)
    ensures forall line :: line in r ==> MatchesDsspLine(line)
    ensures forall n :: 0 <= n < |lines| && MatchesDsspLine(lines[n]) ==> lines[n] in r
  {
    if lines == [] then []
    else
      var init := MatchingLines(lines[..|lines| - 1]);
      if MatchesDsspLine(lines[|lines| - 1]) then init + [lines[|lines| - 1]] else init
  }

  /** Skipping non-matching lines is silent: dropping them all changes nothing. */
  lemma {:induction false} NonMatchingLinesIgnored(lines: seq<string>)
    ensures SecondaryStructureOf(MatchingLines(lines)) == SecondaryStructureOf(lines)
  {
    if lines != [] {
      var init, last := lines[..|lines| - 1], lines[|lines| - 1];
      var kept := MatchingLines(init);
      NonMatchingLinesIgnored(init);
      assert SecondaryStructureOf(lines) == ApplyLine(SecondaryStructureOf(init), last);
      if MatchesDsspLine(last) {
        assert MatchingLines(lines) == kept + [last];
        assert (kept + [last])[..|kept|] == kept;
        assert SecondaryStructureOf(kept + [last]) == ApplyLine(SecondaryStructureOf(kept), last);
      } else {
        assert MatchingLines(lines) == kept;
        assert ApplyLine(SecondaryStructureOf(init), last) == SecondaryStructureOf(init);
      }
    }
  }
}
