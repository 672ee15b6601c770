/**
 * OCR post-processing (PlateDetector.post_process_ocr_result): trim, upper-case,
 * drop spaces and newlines, replace the common OCR confusions letter -> digit,
 * then delete every character outside A-Z and 0-9.
 *
 * Characters are modelled over ASCII: Python's Unicode upper() and strip() agree
 * with UpperChar and IsPySpace on ASCII input.
 */
module TextNormalizer {

  /** ASCII characters for which Python's str.isspace() holds (also the ASCII part of regex \s). */
  predicate IsPySpace(c: char) {
    c == ' ' || ('\t' <= c <= '\r') || ('\U{1C}' <= c <= '\U{1F}')
  }

  predicate IsUpperLetter(c: char) { 'A' <= c <= 'Z' }
  predicate IsDigit(c: char) { '0' <= c <= '9' }

  /** The class [A-Z0-9] kept by the final re.sub. */
  predicate IsPlateChar(c: char) { IsUpperLetter(c) || IsDigit(c) }

  /** The letters the confusion table rewrites. */
  predicate IsConfusable(c: char) { c in "OILSZBGQ" }

  /** What every normalised text looks like. */
  predicate IsNormalized(s: string) {
    forall i :: 0 <= i < |s| ==> IsPlateChar(s[i]) && !IsConfusable(s[i])
  }

  // ----- the stages, in the order the source applies them -----

  /** str.lstrip(): the longest suffix of s that does not start with whitespace. */
  function TrimLeft(s: string): (r: string)
    ensures |r| <= |s|
    ensures r == s[|s| - |r|..]
    ensures r == [] || !IsPySpace(r[0])
    ensures forall i :: 0 <= i < |s| - |r| ==> IsPySpace(s[i])
  {
    if |s| > 0 && IsPySpace(s[0]) then TrimLeft(s[1..]) else s
  }

  /** str.rstrip(): the longest prefix of s that does not end with whitespace. */
  function TrimRight(s: string): (r: string)
    ensures |r| <= |s|
    ensures r == s[..|r|]
    ensures r == [] || !IsPySpace(r[|r| - 1])
    ensures forall i :: |r| <= i < |s| ==> IsPySpace(s[i])
  {
    if |s| > 0 && IsPySpace(s[|s| - 1]) then TrimRight(s[..|s| - 1]) else s
  }

  /** str.strip() with no argument. */
  function Strip(s: string): string {
    TrimRight(TrimLeft(s))
  }

  function UpperChar(c: char): (u: char)
    ensures IsUpperLetter(u) <==> IsUpperLetter(c) || 'a' <= c <= 'z'
    ensures !('a' <= c <= 'z') ==> u == c
    ensures 'a' <= c <= 'z' ==> u as int - 'A' as int == c as int - 'a' as int
  {
    if 'a' <= c <= 'z' then (c as int - 32) as char else c
  }

  /** str.upper() on ASCII text. */
  function Upper(s: string): (r: string)
    ensures |r| == |s|
  {
    seq(|s|, i requires 0 <= i < |s| => UpperChar(s[i]))
  }

  /** str.replace(c, ''): every occurrence of c removed. */
  function RemoveAll(s: string, c: char): (r: string)
    ensures |r| <= |s|
    ensures forall i :: 0 <= i < |r| ==> r[i] != c
    ensures forall d :: d in r <==> d in s && d != c
  {
    if s == [] then [] else (if s[0] == c then [] else [s[0]]) + RemoveAll(s[1..], c)
  }

  /** str.replace(a, b) for one character by one character. */
  function ReplaceAll(s: string, a: char, b: char): (r: string)
    ensures |r| == |s|
    ensures forall i :: 0 <= i < |r| ==> r[i] != a || a == b
    ensures forall i :: 0 <= i < |s| && s[i] == a ==> r[i] == b
    ensures forall i :: 0 <= i < |s| && s[i] != a ==> r[i] == s[i]
  {
    seq(|s|, i requires 0 <= i < |s| => if s[i] == a then b else s[i])
  }

  /** The eight substitutions O->0, I->1, L->1, S->5, Z->2, B->8, G->6, Q->0, in source order. */
  function Substitute(s: string): (r: string)
    ensures |r| == |s|
    ensures forall d :: d in r ==> !IsConfusable(d)
  {
    var s1 := ReplaceAll(s, 'O', '0');
    var s2 := ReplaceAll(s1, 'I', '1');
    var s3 := ReplaceAll(s2, 'L', '1');
    var s4 := ReplaceAll(s3, 'S', '5');
    var s5 := ReplaceAll(s4, 'Z', '2');
    var s6 := ReplaceAll(s5, 'B', '8');
    var s7 := ReplaceAll(s6, 'G', '6');
    ReplaceAll(s7, 'Q', '0')
  }

  /** re.sub(r'[^A-Z0-9]', '', s). */
  function KeepPlateChars(s: string): (r: string)
    ensures |r| <= |s|
    ensures forall i :: 0 <= i < |r| ==> IsPlateChar(r[i])
    ensures forall d :: d in r ==> d in s
  {
    if s == [] then [] else (if IsPlateChar(s[0]) then [s[0]] else []) + KeepPlateChars(s[1..])
  }

  /** post_process_ocr_result: the result only holds A-Z0-9 and none of O I L S Z B G Q. */
  function PostProcessOcrResult(text: string): (r: string)
    ensures IsNormalized(r)
    ensures |r| <= |text|
  {
    var clean := RemoveAll(RemoveAll(Upper(Strip(text)), ' '), '\n');
    KeepPlateChars(Substitute(clean))
  }

  // ----- an independent, per-character definition -----

  /** The single character the confusion table maps c to. */
  function Confusion(c: char): char {
    match c
    case 'O' => '0'
    case 'I' => '1'
    case 'L' => '1'
    case 'S' => '5'
    case 'Z' => '2'
    case 'B' => '8'
    case 'G' => '6'
    case 'Q' => '0'
    case _ => c
  }

  /** What one input character becomes: nothing, or one normalised character. */
  function NormalizeChar(c: char): string {
    var u := Confusion(UpperChar(c));
    if IsPlateChar(u) then [u] else []
  }

  function NormalizeByTable(s: string): string {
    if s == [] then [] else NormalizeChar(s[0]) + NormalizeByTable(s[1..])
  }

  // ----- lemmas -----

  lemma {:induction false} RemoveAllAbsent(s: string, c: char)
    requires c !in s
    ensures RemoveAll(s, c) == s
  {
    if s != [] {
      RemoveAllAbsent(s[1..], c);
      assert s == [s[0]] + s[1..];
    }
  }

  lemma {:induction false} KeepPlateCharsAll(s: string)
    requires forall i :: 0 <= i < |s| ==> IsPlateChar(s[i])
    ensures KeepPlateChars(s) == s
  {
    if s != [] {
      KeepPlateCharsAll(s[1..]);
      assert s == [s[0]] + s[1..];
    }
  }

  /** A normalised text passes through post-processing unchanged. */
  lemma NormalizedIsFixedPoint(s: string)
    requires IsNormalized(s)
    ensures PostProcessOcrResult(s) == s
  {
    assert TrimLeft(s) == s;
    assert TrimRight(s) == s;
    assert Upper(s) == s;
    RemoveAllAbsent(s, ' ');
    RemoveAllAbsent(s, '\n');
    assert Substitute(s) == s;
    KeepPlateCharsAll(s);
  }

  /** Exactly the normalised texts are left unchanged by post-processing. */
  lemma FixedPointIff(s: string)
    ensures PostProcessOcrResult(s) == s <==> IsNormalized(s)
  {
    if IsNormalized(s) {
      NormalizedIsFixedPoint(s);
    }
  }

  /** Post-processing twice is the same as post-processing once. */
  lemma PostProcessIdempotent(s: string)
    ensures PostProcessOcrResult(PostProcessOcrResult(s)) == PostProcessOcrResult(s)
  {
    NormalizedIsFixedPoint(PostProcessOcrResult(s));
  }

  /** The stages after strip(), as one function of the stripped text. */
  function AfterStrip(s: string): string {
    KeepPlateChars(Substitute(RemoveAll(RemoveAll(Upper(s), ' '), '\n')))
  }

  lemma {:induction false} RemoveAllAppend(a: string, b: string, c: char)
    ensures RemoveAll(a + b, c) == RemoveAll(a, c) + RemoveAll(b, c)
  {
    if a != [] {
      assert (a + b)[0] == a[0] && (a + b)[1..] == a[1..] + b;
      var head := if a[0] == c then [] else [a[0]];
      assert RemoveAll(a + b, c) == head + RemoveAll(a[1..] + b, c);
      assert RemoveAll(a, c) == head + RemoveAll(a[1..], c);
      RemoveAllAppend(a[1..], b, c);
    } else {
      assert a + b == b;
    }
  }

  lemma {:induction false} KeepPlateCharsAppend(a: string, b: string)
    ensures KeepPlateChars(a + b) == KeepPlateChars(a) + KeepPlateChars(b)
  {
    if a != [] {
      assert (a + b)[0] == a[0] && (a + b)[1..] == a[1..] + b;
      KeepPlateCharsAppend(a[1..], b);
    } else {
      assert a + b == b;
    }
  }

  lemma ReplaceAllAppend(a: string, b: string, x: char, y: char)
    ensures ReplaceAll(a + b, x, y) == ReplaceAll(a, x, y) + ReplaceAll(b, x, y)
  {
  }

  lemma SubstituteAppend(a: string, b: string)
    ensures Substitute(a + b) == Substitute(a) + Substitute(b)
  {
    var a1, b1 := ReplaceAll(a, 'O', '0'), ReplaceAll(b, 'O', '0');
    ReplaceAllAppend(a, b, 'O', '0');
    var a2, b2 := ReplaceAll(a1, 'I', '1'), ReplaceAll(b1, 'I', '1');
    ReplaceAllAppend(a1, b1, 'I', '1');
    var a3, b3 := ReplaceAll(a2, 'L', '1'), ReplaceAll(b2, 'L', '1');
    ReplaceAllAppend(a2, b2, 'L', '1');
    var a4, b4 := ReplaceAll(a3, 'S', '5'), ReplaceAll(b3, 'S', '5');
    ReplaceAllAppend(a3, b3, 'S', '5');
    var a5, b5 := ReplaceAll(a4, 'Z', '2'), ReplaceAll(b4, 'Z', '2');
    ReplaceAllAppend(a4, b4, 'Z', '2');
    var a6, b6 := ReplaceAll(a5, 'B', '8'), ReplaceAll(b5, 'B', '8');
    ReplaceAllAppend(a5, b5, 'B', '8');
    var a7, b7 := ReplaceAll(a6, 'G', '6'), ReplaceAll(b6, 'G', '6');
    ReplaceAllAppend(a6, b6, 'G', '6');
    ReplaceAllAppend(a7, b7, 'Q', '0');
  }

  lemma AfterStripAppend(a: string, b: string)
    ensures AfterStrip(a + b) == AfterStrip(a) + AfterStrip(b)
  {
    assert Upper(a + b) == Upper(a) + Upper(b);
    RemoveAllAppend(Upper(a), Upper(b), ' ');
    RemoveAllAppend(RemoveAll(Upper(a), ' '), RemoveAll(Upper(b), ' '), '\n');
    var ca, cb := RemoveAll(RemoveAll(Upper(a), ' '), '\n'), RemoveAll(RemoveAll(Upper(b), ' '), '\n');
    SubstituteAppend(ca, cb);
    KeepPlateCharsAppend(Substitute(ca), Substitute(cb));
  }

  lemma SubstituteChar(u: char)
    ensures Substitute([u]) == [Confusion(u)]
  {
  }

  lemma RemoveAllSingle(u: char, c: char)
    ensures RemoveAll([u], c) == if u == c then [] else [u]
  {
    assert [u][1..] == [];
  }

  lemma KeepPlateCharsSingle(u: char)
    ensures KeepPlateChars([u]) == if IsPlateChar(u) then [u] else []
  {
    assert [u][1..] == [];
  }

  lemma AfterStripChar(c: char)
    ensures AfterStrip([c]) == NormalizeChar(c)
  {
    var u := UpperChar(c);
    assert Upper([c]) == [u];
    RemoveAllSingle(u, ' ');
    if u == ' ' || u == '\n' {
      assert RemoveAll(RemoveAll([u], ' '), '\n') == [];
      assert Substitute([]) == [];
      assert KeepPlateChars([]) == [];
    } else {
      RemoveAllSingle(u, '\n');
      SubstituteChar(u);
      KeepPlateCharsSingle(Confusion(u));
    }
  }

  lemma {:induction false} AfterStripByTable(s: string)
    ensures AfterStrip(s) == NormalizeByTable(s)
  {
    if s == [] {
      assert Upper(s) == [];
      assert Substitute([]) == [];
    } else {
      assert s == [s[0]] + s[1..];
      AfterStripAppend([s[0]], s[1..]);
      AfterStripChar(s[0]);
      AfterStripByTable(s[1..]);
    }
  }

  lemma {:induction false} TableAppend(a: string, b: string)
    ensures NormalizeByTable(a + b) == NormalizeByTable(a) + NormalizeByTable(b)
  {
    if a != [] {
      assert (a + b)[0] == a[0] && (a + b)[1..] == a[1..] + b;
      TableAppend(a[1..], b);
    } else {
      assert a + b == b;
    }
  }

  lemma SpaceIsDropped(c: char)
    requires IsPySpace(c)
    ensures NormalizeChar(c) == []
  {
  }

  lemma {:induction false} TableIgnoresTrimLeft(s: string)
    ensures NormalizeByTable(TrimLeft(s)) == NormalizeByTable(s)
  {
    if |s| > 0 && IsPySpace(s[0]) {
      SpaceIsDropped(s[0]);
      assert NormalizeByTable(s) == NormalizeByTable(s[1..]);
      TableIgnoresTrimLeft(s[1..]);
    }
  }

  lemma {:induction false} TableIgnoresTrimRight(s: string)
    ensures NormalizeByTable(TrimRight(s)) == NormalizeByTable(s)
  {
    if |s| > 0 && IsPySpace(s[|s| - 1]) {
      var n := |s| - 1;
      assert s == s[..n] + [s[n]];
      TableAppend(s[..n], [s[n]]);
      SpaceIsDropped(s[n]);
      assert NormalizeByTable([s[n]]) == NormalizeChar(s[n]);
      TableIgnoresTrimRight(s[..n]);
    }
  }

  /**
   * The chain of global replacements equals a per-character table lookup: the source's order of
   * substitutions does not matter, because no substitution produces a letter a later one rewrites.
   */
  lemma PostProcessIsTableLookup(text: string)
    ensures PostProcessOcrResult(text) == NormalizeByTable(text)
  {
    assert PostProcessOcrResult(text) == AfterStrip(Strip(text));
    AfterStripByTable(Strip(text));
    TableIgnoresTrimRight(TrimLeft(text));
    TableIgnoresTrimLeft(text);
  }

  lemma TableLowerCase()
    ensures NormalizeByTable(" o1l ") == "011"
  {
    TableAppend(" o", "1l ");
    assert " o" + "1l " == " o1l ";
    assert NormalizeByTable(" o") == "0";
    assert NormalizeByTable("1l ") == "11";
  }

  lemma TableAuthorizedPlateRewritten()
    ensures NormalizeByTable("R6978SF") == "R69785F"
  {
    TableAppend("R69", "78SF");
    assert "R69" + "78SF" == "R6978SF";
    assert NormalizeByTable("R69") == "R69";
    assert NormalizeByTable("78SF") == "785F";
  }

  lemma TableAuthorizedPlateKept()
    ensures NormalizeByTable("R5477DP") == "R5477DP"
  {
    TableAppend("R54", "77DP");
    assert "R54" + "77DP" == "R5477DP";
    assert NormalizeByTable("R54") == "R54";
    assert NormalizeByTable("77DP") == "77DP";
  }

  lemma TableLeadingB()
    ensures NormalizeByTable("B1234CD") == "81234CD"
  {
    TableAppend("B12", "34CD");
    assert "B12" + "34CD" == "B1234CD";
    assert NormalizeByTable("B12") == "812";
    assert NormalizeByTable("34CD") == "34CD";
  }

  /** Lower-case o and l become digits, surrounding blanks vanish. */
  lemma ExampleLowerCase()
    ensures PostProcessOcrResult(" o1l ") == "011"
  {
    TableLowerCase();
    PostProcessIsTableLookup(" o1l ");
  }

  /** A perfect reading of the authorised plate R6978SF becomes R69785F. */
  lemma ExampleAuthorizedPlateRewritten()
    ensures PostProcessOcrResult("R6978SF") == "R69785F"
  {
    TableAuthorizedPlateRewritten();
    PostProcessIsTableLookup("R6978SF");
  }

  /** A perfect reading of the authorised plate R5477DP is kept as it is. */
  lemma ExampleAuthorizedPlateKept()
    ensures PostProcessOcrResult("R5477DP") == "R5477DP"
  {
    TableAuthorizedPlateKept();
    PostProcessIsTableLookup("R5477DP");
  }

  /** A plate starting with B is rewritten to start with the digit 8. */
  lemma ExampleLeadingB()
    ensures PostProcessOcrResult("B1234CD") == "81234CD"
  {
    TableLeadingB();
    PostProcessIsTableLookup("B1234CD");
  }

  /** A normalised text can never contain S, so it is never the authorised plate R6978SF. */
  lemma NormalizedIsNotR6978SF(s: string)
    requires IsNormalized(s)
    ensures s != "R6978SF"
  {
    if s == "R6978SF" {
      assert IsConfusable(s[5]);
    }
  }
}
