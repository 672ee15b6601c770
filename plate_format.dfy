/**
 * Plate-format validation (PlateDetector.validate_plate_format and the three compiled
 * patterns). Each pattern is a concatenation of bounded repetitions of one character
 * class, e.g. ^[A-Z]{1,2}\d{1,4}[A-Z]{1,3}$, written here as a list of groups.
 * ValidatePlateFormat runs a greedy recogniser; RegexLanguage is the meaning of the
 * regular expression (a split of the text into pieces), and GreedyDecidesLanguage
 * shows the two agree for every pattern whose adjacent classes cannot be confused.
 */
module PlateFormat {
  import opened Config
  import opened TextNormalizer

  /** [A-Z], \d and \s, restricted to ASCII. */
  datatype CharClass = Letter | Digit | Space

  predicate InClass(c: char, k: CharClass) {
    match k
    case Letter => IsUpperLetter(c)
    case Digit => IsDigit(c)
    case Space => IsPySpace(c)
  }

  /** k{lo,hi}; k? is k{0,1} and a bare k is k{1,1}. */
  datatype Group = Group(cls: CharClass, lo: nat, hi: nat)

  /** ^[A-Z]{1,2}\d{1,4}[A-Z]{1,3}$ */
  const Pattern1: seq<Group> := [Group(Letter, 1, 2), Group(Digit, 1, 4), Group(Letter, 1, 3)]
  /** ^[A-Z]{1,2}\s?\d{1,4}\s?[A-Z]{1,3}$ */
  const Pattern2: seq<Group> :=
    [Group(Letter, 1, 2), Group(Space, 0, 1), Group(Digit, 1, 4), Group(Space, 0, 1), Group(Letter, 1, 3)]
  /** ^[A-Z]\d{4}[A-Z]{2}$ */
  const Pattern3: seq<Group> := [Group(Letter, 1, 1), Group(Digit, 4, 4), Group(Letter, 2, 2)]

  /** self.plate_patterns, in the order they are tried. */
  const PlatePatterns: seq<seq<Group>> := [Pattern1, Pattern2, Pattern3]

  /** Length of the longest prefix of s whose characters all belong to k. */
  function Run(s: string, k: CharClass): (n: nat)
    ensures n <= |s|
    ensures forall j :: 0 <= j < n ==> InClass(s[j], k)
    ensures n == |s| || !InClass(s[n], k)
  {
    if s != [] && InClass(s[0], k) then 1 + Run(s[1..], k) else 0
  }

  /** Each group takes as many characters of its class as it may, with no backtracking. */
  function GreedyMatch(s: string, gs: seq<Group>): bool
    decreases |gs|
  {
    if gs == [] then s == []
    else
      var n := Min(Run(s, gs[0].cls), gs[0].hi);
      gs[0].lo <= n && GreedyMatch(s[n..], gs[1..])
  }

  /**
   * pattern.match(s) for a pattern anchored with ^ and $: Python's $ also matches just
   * before a final newline, so s may carry one trailing '\n' beyond the match.
   */
  function PyMatch(gs: seq<Group>, s: string): bool {
    GreedyMatch(s, gs) || (|s| > 0 && s[|s| - 1] == '\n' && GreedyMatch(s[..|s| - 1], gs))
  }

  /** The early-return loop over the patterns: true at the first pattern that matches. */
  function MatchesAny(ps: seq<seq<Group>>, s: string): (r: bool)
    ensures r <==> exists i :: 0 <= i < |ps| && PyMatch(ps[i], s)
  {
    if ps == [] then false
    else if PyMatch(ps[0], s) then true
    else
      assert forall i :: 1 <= i < |ps| ==> ps[i] == ps[1..][i - 1];
      MatchesAny(ps[1..], s)
  }

  /** validate_plate_format: too-short texts fail, otherwise any pattern may match. */
  function ValidatePlateFormat(plateText: string): (r: bool)
    ensures r ==> |plateText| >= 4
  {
    if |plateText| == 0 || |plateText| < 4 then false
    else MatchesAny(PlatePatterns, plateText)
  }

  // ----- the meaning of the regular expressions -----

  ghost predicate AllIn(t: string, k: CharClass) {
    forall j :: 0 <= j < |t| ==> InClass(t[j], k)
  }

  /** s splits into consecutive pieces, piece i holding lo..hi characters of class i. */
  ghost predicate RegexLanguage(s: string, gs: seq<Group>)
    decreases |gs|
  {
    if gs == [] then s == []
    else exists n :: gs[0].lo <= n <= gs[0].hi && n <= |s| && AllIn(s[..n], gs[0].cls)
                     && RegexLanguage(s[n..], gs[1..])
  }

  /** The anchored match with Python's $-before-final-newline rule, on the language level. */
  ghost predicate RegexMatch(gs: seq<Group>, s: string) {
    RegexLanguage(s, gs) || (|s| > 0 && s[|s| - 1] == '\n' && RegexLanguage(s[..|s| - 1], gs))
  }

  /** No group of class k can be the next to consume a character after a group of class k. */
  ghost predicate Unreachable(k: CharClass, rest: seq<Group>)
    decreases |rest|
  {
    rest == [] || (rest[0].cls != k && (rest[0].lo == 0 ==> Unreachable(k, rest[1..])))
  }

  /** The condition under which greedy matching without backtracking is exact. */
  ghost predicate Separated(gs: seq<Group>) {
    forall i :: 0 <= i < |gs| ==> Unreachable(gs[i].cls, gs[i + 1..])
  }

  lemma ClassesDisjoint(c: char, k1: CharClass, k2: CharClass)
    requires InClass(c, k1) && InClass(c, k2)
    ensures k1 == k2
  {
  }

  /** A text starting with a class-k character cannot match groups where k is unreachable. */
  lemma {:induction false} Blocked(t: string, k: CharClass, rest: seq<Group>)
    requires |t| > 0 && InClass(t[0], k)
    requires Unreachable(k, rest)
    ensures !RegexLanguage(t, rest)
    decreases |rest|
  {
    if rest != [] && RegexLanguage(t, rest) {
      var m :| rest[0].lo <= m <= rest[0].hi && m <= |t| && AllIn(t[..m], rest[0].cls)
               && RegexLanguage(t[m..], rest[1..]);
      if m > 0 {
        assert t[..m][0] == t[0];
        ClassesDisjoint(t[0], k, rest[0].cls);
      } else {
        assert t[m..] == t;
        Blocked(t, k, rest[1..]);
      }
    }
  }

  lemma SeparatedTail(gs: seq<Group>)
    requires gs != [] && Separated(gs)
    ensures Separated(gs[1..])
  {
    forall i | 0 <= i < |gs[1..]|
      ensures Unreachable(gs[1..][i].cls, gs[1..][i + 1..])
    {
      assert gs[1..][i + 1..] == gs[i + 2..];
      assert Unreachable(gs[i + 1].cls, gs[i + 2..]);
    }
  }

  /** A prefix made of class-k characters is no longer than the maximal run. */
  lemma RunBound(s: string, k: CharClass, m: nat)
    requires m <= |s| && AllIn(s[..m], k)
    ensures m <= Run(s, k)
  {
  }

  /** The piece a separated pattern's first group takes is exactly the greedy one. */
  lemma FirstPieceIsGreedy(s: string, gs: seq<Group>, m: nat)
    requires gs != [] && Separated(gs)
    requires gs[0].lo <= m <= gs[0].hi && m <= |s| && AllIn(s[..m], gs[0].cls)
    requires RegexLanguage(s[m..], gs[1..])
    ensures m == Min(Run(s, gs[0].cls), gs[0].hi)
  {
    var k := gs[0].cls;
    RunBound(s, k, m);
    if m < Min(Run(s, k), gs[0].hi) {
      assert s[m..][0] == s[m];
      assert InClass(s[m], k);
      assert Unreachable(gs[0].cls, gs[0 + 1..]);
      assert gs[0 + 1..] == gs[1..];
      Blocked(s[m..], k, gs[1..]);
    }
  }

  /** The greedy recogniser accepts exactly the texts in the pattern's language. */
  lemma {:induction false} GreedyDecidesLanguage(s: string, gs: seq<Group>)
    requires Separated(gs)
    ensures GreedyMatch(s, gs) <==> RegexLanguage(s, gs)
    decreases |gs|
  {
    if gs != [] {
      SeparatedTail(gs);
      var g := gs[0];
      var n := Min(Run(s, g.cls), g.hi);
      GreedyDecidesLanguage(s[n..], gs[1..]);
      assert AllIn(s[..n], g.cls);
      if RegexLanguage(s, gs) {
        var m :| g.lo <= m <= g.hi && m <= |s| && AllIn(s[..m], g.cls) && RegexLanguage(s[m..], gs[1..]);
        FirstPieceIsGreedy(s, gs, m);
      }
    }
  }

  lemma PatternsSeparated()
    ensures Separated(Pattern1) && Separated(Pattern2) && Separated(Pattern3)
  {
    assert Pattern1[1..] == [Group(Digit, 1, 4), Group(Letter, 1, 3)];
    assert Pattern1[2..] == [Group(Letter, 1, 3)];
    assert Pattern1[3..] == [];
    assert Pattern2[1..] == [Group(Space, 0, 1), Group(Digit, 1, 4), Group(Space, 0, 1), Group(Letter, 1, 3)];
    assert Pattern2[2..] == [Group(Digit, 1, 4), Group(Space, 0, 1), Group(Letter, 1, 3)];
    assert Pattern2[3..] == [Group(Space, 0, 1), Group(Letter, 1, 3)];
    assert Pattern2[4..] == [Group(Letter, 1, 3)];
    assert Pattern2[5..] == [];
    assert Pattern3[1..] == [Group(Digit, 4, 4), Group(Letter, 2, 2)];
    assert Pattern3[2..] == [Group(Letter, 2, 2)];
    assert Pattern3[3..] == [];
  }

  // ----- containment of the three patterns -----

  /** Every group of gs admits no more than the group of hs at the same position. */
  ghost predicate Tighter(gs: seq<Group>, hs: seq<Group>) {
    |gs| == |hs| &&
    forall i :: 0 <= i < |gs| ==> gs[i].cls == hs[i].cls && hs[i].lo <= gs[i].lo && gs[i].hi <= hs[i].hi
  }

  lemma {:induction false} TighterLanguage(s: string, gs: seq<Group>, hs: seq<Group>)
    requires Tighter(gs, hs) && RegexLanguage(s, gs)
    ensures RegexLanguage(s, hs)
    decreases |gs|
  {
    if gs != [] {
      var n :| gs[0].lo <= n <= gs[0].hi && n <= |s| && AllIn(s[..n], gs[0].cls)
               && RegexLanguage(s[n..], gs[1..]);
      assert Tighter(gs[1..], hs[1..]) by {
        forall i | 0 <= i < |gs[1..]|
          ensures gs[1..][i].cls == hs[1..][i].cls && hs[1..][i].lo <= gs[1..][i].lo && gs[1..][i].hi <= hs[1..][i].hi
        {
          assert gs[1..][i] == gs[i + 1] && hs[1..][i] == hs[i + 1];
        }
      }
      TighterLanguage(s[n..], gs[1..], hs[1..]);
    }
  }

  /** A first piece and a split of the rest make a split of the whole text. */
  lemma LanguageCons(s: string, gs: seq<Group>, n: nat)
    requires gs != [] && gs[0].lo <= n <= gs[0].hi && n <= |s| && AllIn(s[..n], gs[0].cls)
    requires RegexLanguage(s[n..], gs[1..])
    ensures RegexLanguage(s, gs)
  {
  }

  lemma InsertFront(s: string, gs: seq<Group>, g: Group)
    requires g.lo == 0 && RegexLanguage(s, gs)
    ensures RegexLanguage(s, [g] + gs)
  {
    var hs := [g] + gs;
    assert hs[0] == g && hs[1..] == gs;
    assert s[..0] == [] && s[0..] == s;
    LanguageCons(s, hs, 0);
  }

  lemma InsertionTail(gs: seq<Group>, i: nat, g: Group)
    requires 0 < i <= |gs|
    ensures (gs[..i] + [g] + gs[i..])[0] == gs[0]
    ensures (gs[..i] + [g] + gs[i..])[1..] == gs[1..][..i - 1] + [g] + gs[1..][i - 1..]
  {
  }

  /** A group that may take nothing can be inserted anywhere without losing a match. */
  lemma {:induction false} InsertOptional(s: string, gs: seq<Group>, i: nat, g: Group)
    requires g.lo == 0 && i <= |gs| && RegexLanguage(s, gs)
    ensures RegexLanguage(s, gs[..i] + [g] + gs[i..])
    decreases i
  {
    if i == 0 {
      assert gs[..0] + [g] + gs[0..] == [g] + gs;
      InsertFront(s, gs, g);
    } else {
      var n :| gs[0].lo <= n <= gs[0].hi && n <= |s| && AllIn(s[..n], gs[0].cls)
               && RegexLanguage(s[n..], gs[1..]);
      InsertOptional(s[n..], gs[1..], i - 1, g);
      InsertionTail(gs, i, g);
      LanguageCons(s, gs[..i] + [g] + gs[i..], n);
    }
  }

  /** ^[A-Z]\d{4}[A-Z]{2}$ only matches what ^[A-Z]{1,2}\d{1,4}[A-Z]{1,3}$ matches. */
  lemma Pattern3WithinPattern1(s: string)
    ensures RegexLanguage(s, Pattern3) ==> RegexLanguage(s, Pattern1)
  {
    if RegexLanguage(s, Pattern3) {
      TighterLanguage(s, Pattern3, Pattern1);
    }
  }

  /** ^[A-Z]{1,2}\d{1,4}[A-Z]{1,3}$ only matches what the pattern with optional blanks matches. */
  lemma Pattern1WithinPattern2(s: string)
    ensures RegexLanguage(s, Pattern1) ==> RegexLanguage(s, Pattern2)
  {
    if RegexLanguage(s, Pattern1) {
      var opt := Group(Space, 0, 1);
      InsertOptional(s, Pattern1, 1, opt);
      var mid := Pattern1[..1] + [opt] + Pattern1[1..];
      InsertOptional(s, mid, 3, opt);
      assert mid[..3] + [opt] + mid[3..] == Pattern2;
    }
  }

  /** The same containments for pattern.match, trailing newline included. */
  lemma PatternContainment(s: string)
    ensures PyMatch(Pattern3, s) ==> PyMatch(Pattern1, s)
    ensures PyMatch(Pattern1, s) ==> PyMatch(Pattern2, s)
  {
    PatternsSeparated();
    GreedyDecidesLanguage(s, Pattern1);
    GreedyDecidesLanguage(s, Pattern2);
    GreedyDecidesLanguage(s, Pattern3);
    Pattern3WithinPattern1(s);
    Pattern1WithinPattern2(s);
    if |s| > 0 {
      var t := s[..|s| - 1];
      GreedyDecidesLanguage(t, Pattern1);
      GreedyDecidesLanguage(t, Pattern2);
      GreedyDecidesLanguage(t, Pattern3);
      Pattern3WithinPattern1(t);
      Pattern1WithinPattern2(t);
    }
  }

  /** Validation tries exactly the three patterns. */
  lemma ValidateTriesThree(s: string)
    ensures ValidatePlateFormat(s) <==>
              |s| >= 4 && (PyMatch(Pattern1, s) || PyMatch(Pattern2, s) || PyMatch(Pattern3, s))
  {
    assert PlatePatterns[0] == Pattern1 && PlatePatterns[1] == Pattern2 && PlatePatterns[2] == Pattern3;
    if |s| >= 4 && MatchesAny(PlatePatterns, s) {
      var i :| 0 <= i < |PlatePatterns| && PyMatch(PlatePatterns[i], s);
      assert i == 0 || i == 1 || i == 2;
    }
  }

  /** Since the patterns are nested, validation is: at least four characters and pattern 2. */
  lemma ValidateIsPattern2(s: string)
    ensures ValidatePlateFormat(s) <==> |s| >= 4 && PyMatch(Pattern2, s)
  {
    ValidateTriesThree(s);
    PatternContainment(s);
  }

  /** What validation means in terms of the regular expression itself. */
  lemma ValidateMeaning(s: string)
    ensures ValidatePlateFormat(s) <==> |s| >= 4 && RegexMatch(Pattern2, s)
  {
    ValidateIsPattern2(s);
    PatternsSeparated();
    GreedyDecidesLanguage(s, Pattern2);
    if |s| > 0 {
      GreedyDecidesLanguage(s[..|s| - 1], Pattern2);
    }
  }

  /** The first character of a non-empty class-k piece is of class k. */
  lemma PieceHead(t: string, k: CharClass, n: nat)
    requires 0 < n <= |t| && AllIn(t[..n], k)
    ensures InClass(t[0], k)
  {
    assert t[..n][0] == t[0];
  }

  /** A piece of class k taken from a text without class-k characters is empty. */
  lemma EmptyPiece(t: string, k: CharClass, n: nat)
    requires n <= |t| && AllIn(t[..n], k)
    requires forall j :: 0 <= j < |t| ==> !InClass(t[j], k)
    ensures n == 0
  {
    if n > 0 {
      PieceHead(t, k, n);
      assert false;
    }
  }

  /** A group that took nothing can be removed again from a text without its class. */
  lemma {:induction false} DropOptional(s: string, gs: seq<Group>, i: nat, g: Group)
    requires i <= |gs| && forall j :: 0 <= j < |s| ==> !InClass(s[j], g.cls)
    requires RegexLanguage(s, gs[..i] + [g] + gs[i..])
    ensures RegexLanguage(s, gs)
    decreases i
  {
    var hs := gs[..i] + [g] + gs[i..];
    var n :| hs[0].lo <= n <= hs[0].hi && n <= |s| && AllIn(s[..n], hs[0].cls)
             && RegexLanguage(s[n..], hs[1..]);
    if i == 0 {
      assert hs[0] == g && hs[1..] == gs;
      EmptyPiece(s, g.cls, n);
      assert s[0..] == s;
    } else {
      assert hs[0] == gs[0];
      assert hs[1..] == gs[1..][..i - 1] + [g] + gs[1..][i - 1..];
      DropOptional(s[n..], gs[1..], i - 1, g);
    }
  }

  /** Two optional groups of a class absent from s can both be dropped. */
  lemma DropTwoOptional(s: string, gs: seq<Group>, mid: seq<Group>, hs: seq<Group>, g: Group)
    requires forall j :: 0 <= j < |s| ==> !InClass(s[j], g.cls)
    requires 2 <= |gs| && mid == gs[..1] + [g] + gs[1..] && hs == mid[..3] + [g] + mid[3..]
    requires RegexLanguage(s, hs)
    ensures RegexLanguage(s, gs)
  {
    DropOptional(s, mid, 3, g);
    DropOptional(s, gs, 1, g);
  }

  lemma Pattern2Shape()
    ensures var opt := Group(Space, 0, 1);
            var mid := Pattern1[..1] + [opt] + Pattern1[1..];
            |mid| == 4 && mid[..3] + [opt] + mid[3..] == Pattern2
  {
    var opt := Group(Space, 0, 1);
    var mid := Pattern1[..1] + [opt] + Pattern1[1..];
    assert mid == [Group(Letter, 1, 2), opt, Group(Digit, 1, 4), Group(Letter, 1, 3)];
  }

  /** Without blanks, the pattern with optional blanks matches only what pattern 1 matches. */
  lemma BlankFreePattern2(s: string)
    requires forall j :: 0 <= j < |s| ==> !IsPySpace(s[j])
    ensures RegexLanguage(s, Pattern2) ==> RegexLanguage(s, Pattern1)
  {
    if RegexLanguage(s, Pattern2) {
      var opt := Group(Space, 0, 1);
      Pattern2Shape();
      DropTwoOptional(s, Pattern1, Pattern1[..1] + [opt] + Pattern1[1..], Pattern2, opt);
    }
  }

  /** On normalised text (no blanks, no newline) validation is pattern 1 plus the length bound. */
  lemma NormalizedValidation(s: string)
    requires IsNormalized(s)
    ensures ValidatePlateFormat(s) <==> |s| >= 4 && RegexLanguage(s, Pattern1)
  {
    ValidateMeaning(s);
    Pattern1WithinPattern2(s);
    assert forall j :: 0 <= j < |s| ==> !IsPySpace(s[j]);
    BlankFreePattern2(s);
    assert RegexMatch(Pattern2, s) <==> RegexLanguage(s, Pattern2);
  }


  /** A text of at least four characters that pattern 1 matches greedily validates. */
  lemma ValidByPattern1(s: string)
    requires |s| >= 4 && GreedyMatch(s, Pattern1)
    ensures ValidatePlateFormat(s)
  {
    assert PlatePatterns[0] == Pattern1;
    assert PyMatch(PlatePatterns[0], s);
  }

  /** Every text of the authorised plates' shape, one letter, four digits, two letters, is accepted. */
  lemma LetterDigitsLettersValid(s: string)
    requires |s| == 7 && IsUpperLetter(s[0]) && IsUpperLetter(s[5]) && IsUpperLetter(s[6])
    requires forall j :: 1 <= j < 5 ==> IsDigit(s[j])
    ensures ValidatePlateFormat(s)
  {
    var t, u := s[1..], s[5..];
    assert !InClass(s[1], Letter) && !InClass(t[4], Digit);
    assert Run(s, Letter) == 1 && s[1..] == t;
    assert Run(t, Digit) == 4 && t[4..] == u;
    assert Run(u, Letter) == 2 && u[2..] == [];
    assert GreedyMatch(u, Pattern1[2..]);
    assert GreedyMatch(t, Pattern1[1..]);
    ValidByPattern1(s);
  }

  /** A one-letter, four-digit, two-letter plate is accepted. */
  lemma ExampleValid()
    ensures ValidatePlateFormat("B1234CD")
  {
    LetterDigitsLettersValid("B1234CD");
  }

  /** The authorised plate R5477DP is accepted. */
  lemma ExampleValidAuthorized()
    ensures ValidatePlateFormat("R5477DP")
  {
    LetterDigitsLettersValid("R5477DP");
  }

  lemma ExampleTooShort()
    ensures !ValidatePlateFormat("A1")
  {
  }

  /** Five digits after the first letter exceed \d{1,4}: such a normalised text is rejected. */
  lemma FiveDigitsRejected(s: string)
    requires IsNormalized(s) && |s| >= 6 && IsUpperLetter(s[0])
    requires forall j :: 1 <= j < 6 ==> IsDigit(s[j])
    ensures !ValidatePlateFormat(s)
  {
    var t := s[1..];
    assert !InClass(s[1], Letter) && Run(s, Letter) == 1;
    assert forall j :: 0 <= j < 4 ==> InClass(t[j], Digit);
    assert Min(Run(t, Digit), 4) == 4;
    assert t[4..][0] == s[5];
    assert Run(t[4..], Letter) == 0;
    assert !GreedyMatch(s, Pattern1);
    NormalizedValidation(s);
    PatternsSeparated();
    GreedyDecidesLanguage(s, Pattern1);
  }

  /** A normalised text that starts with a digit is rejected. */
  lemma LeadingDigitRejected(s: string)
    requires IsNormalized(s) && |s| > 0 && IsDigit(s[0])
    ensures !ValidatePlateFormat(s)
  {
    assert Run(s, Letter) == 0;
    NormalizedValidation(s);
    PatternsSeparated();
    GreedyDecidesLanguage(s, Pattern1);
  }

  /** The text R69785F (what R6978SF normalises to) is rejected. */
  lemma ExampleFiveDigits()
    ensures !ValidatePlateFormat("R69785F")
  {
    assert IsNormalized("R69785F");
    FiveDigitsRejected("R69785F");
  }

  /** The text 81234CD (what B1234CD normalises to) is rejected. */
  lemma ExampleLeadingDigit()
    ensures !ValidatePlateFormat("81234CD")
  {
    assert IsNormalized("81234CD");
    LeadingDigitRejected("81234CD");
  }
}
