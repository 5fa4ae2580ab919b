/**
 * The stage path and label helpers of the gameplay scene: finding the
 * stage number at the end of a path such as "stages/stage_009.json",
 * stepping it to the next stage ("stages/stage_010.json"), and naming a
 * stage for display.
 *
 * Both helpers search the path with a regular expression. The search is
 * modelled by saying exactly which slices of the path the pattern matches
 * (MatchesNext, MatchesLabel) and proving that the match computed here is the
 * one a leftmost, backtracking search picks.
 */
module StagePaths {
  import opened Common

  predicate IsDigit(c: char) {
    '0' <= c <= '9'
  }

  /** s[lo..hi] is made of digits only. */
  predicate DigitsBetween(s: string, lo: nat, hi: nat)
    requires lo <= hi <= |s|
  {
    forall i :: lo <= i < hi ==> IsDigit(s[i])
  }

  predicate AllDigits(s: string) {
    forall i :: 0 <= i < |s| ==> IsDigit(s[i])
  }

  /** s[lo..hi] holds no line break. */
  predicate OneLine(s: string, lo: nat, hi: nat)
    requires lo <= hi <= |s|
  {
    forall i :: lo <= i < hi ==> s[i] != '\n'
  }

  const JsonSuffix: string := ".json"

  /** The text ".json" stands at path[t..t+5]. */
  predicate JsonAt(path: string, t: nat) {
    && t + 5 <= |path|
    && path[t] == '.' && path[t + 1] == 'j' && path[t + 2] == 's' && path[t + 3] == 'o' && path[t + 4] == 'n'
  }

  /**
   * The end-of-text anchor: the match may end at the very end of the path, or
   * just before a line break that is the last character of the path.
   */
  predicate AtEnd(path: string, e: nat) {
    e == |path| || (e + 1 == |path| && path[e] == '\n')
  }

  /** The match of "(\d+)\.json$" has its digits at path[j..e-5] and ends at e. */
  predicate MatchesLabel(path: string, j: nat, e: nat) {
    && j + 5 < e <= |path|
    && DigitsBetween(path, j, e - 5)
    && JsonAt(path, e - 5)
    && AtEnd(path, e)
  }

  /**
   * The match of "(.*?)(\d+)(\.json)$" starts at s, has its digits at
   * path[j..e-5] and ends at e; the lazy prefix path[s..j] may not cross a
   * line break, since '.' does not match one.
   */
  predicate MatchesNext(path: string, s: nat, j: nat, e: nat) {
    && s <= j
    && MatchesLabel(path, j, e)
    && OneLine(path, s, j)
  }

  /** Where the pattern has to end, if anywhere: the path must close with ".json", or with ".json" and one line break. */
  function MatchEnd(path: string): (e: Option<nat>)
    ensures e.Some? ==> 5 <= e.value <= |path| && JsonAt(path, e.value - 5) && AtEnd(path, e.value)
  {
    if |path| >= 5 && JsonAt(path, |path| - 5) then Some(|path|)
    else if |path| >= 6 && path[|path| - 1] == '\n' && JsonAt(path, |path| - 6) then Some(|path| - 1)
    else None
  }

  /** Only one end position can close a match, and MatchEnd finds it. */
  lemma MatchEndUnique(path: string, e: nat)
    requires 5 <= e <= |path| && JsonAt(path, e - 5) && AtEnd(path, e)
    ensures MatchEnd(path) == Some(e)
  {
  }

  /** The start of the run of digits that ends at t. */
  function DigitRunStart(path: string, t: nat): (d: nat)
    requires t <= |path|
    ensures d <= t && DigitsBetween(path, d, t)
    ensures d == 0 || !IsDigit(path[d - 1])
  {
    if t > 0 && IsDigit(path[t - 1]) then DigitRunStart(path, t - 1) else t
  }

  /** The start of the line that holds position d. */
  function LineStartBefore(path: string, d: nat): (s: nat)
    requires d <= |path|
    ensures s <= d && OneLine(path, s, d)
    ensures s == 0 || path[s - 1] == '\n'
  {
    if d == 0 || path[d - 1] == '\n' then d else LineStartBefore(path, d - 1)
  }

  /** The digits d..t of a match, and the start s of the lazy prefix. */
  datatype StageNumber = StageNumber(s: nat, d: nat, t: nat)

  /** The match a leftmost search for the stage-number pattern finds, if any. */
  function FindStageNumber(path: string): (m: Option<StageNumber>)
    ensures m.Some? ==> m.value.d < m.value.t && m.value.t + 5 <= |path|
    ensures m.Some? ==> MatchesNext(path, m.value.s, m.value.d, m.value.t + 5)
  {
    match MatchEnd(path)
    case None => None
    case Some(e) =>
      var t := e - 5;
      var d := DigitRunStart(path, t);
      if d == t then None else Some(StageNumber(LineStartBefore(path, d), d, t))
  }

  /** A run of digits that ends at t starts no earlier than DigitRunStart(path, t). */
  lemma DigitRunFirst(path: string, t: nat, j: nat)
    requires j <= t <= |path| && DigitsBetween(path, j, t)
    ensures DigitRunStart(path, t) <= j
    decreases t
  {
    if t > j {
      DigitRunFirst(path, t - 1, j);
    }
  }

  /**
   * The search for "(\d+)\.json$" finds the leftmost match, with its digit
   * run starting at d, and finds none when there is none.
   */
  lemma LabelMatchIsLeftmost(path: string)
    ensures FindStageNumber(path).None? ==> forall j: nat, e: nat :: !MatchesLabel(path, j, e)
    ensures FindStageNumber(path).Some? ==>
      var m := FindStageNumber(path).value;
      && MatchesLabel(path, m.d, m.t + 5)
      && forall j: nat, e: nat :: MatchesLabel(path, j, e) ==> m.d <= j && e == m.t + 5
  {
    forall j: nat, e: nat | MatchesLabel(path, j, e)
      ensures FindStageNumber(path).Some? && FindStageNumber(path).value.d <= j && e == FindStageNumber(path).value.t + 5
    {
      MatchEndUnique(path, e);
      DigitRunFirst(path, e - 5, j);
    }
  }

  /**
   * The search for "(.*?)(\d+)(\.json)$" finds the match a backtracking
   * search reports: the leftmost start, then the shortest lazy prefix. It
   * finds none when there is none.
   */
  lemma NextMatchIsFirst(path: string)
    ensures FindStageNumber(path).None? ==> forall s: nat, j: nat, e: nat :: !MatchesNext(path, s, j, e)
    ensures FindStageNumber(path).Some? ==>
      var m := FindStageNumber(path).value;
      && MatchesNext(path, m.s, m.d, m.t + 5)
      && forall s: nat, j: nat, e: nat :: MatchesNext(path, s, j, e) ==> m.s < s || (m.s == s && m.d <= j)
  {
    LabelMatchIsLeftmost(path);
    forall s: nat, j: nat, e: nat | MatchesNext(path, s, j, e)
      ensures FindStageNumber(path).Some?
      ensures FindStageNumber(path).value.s < s || (FindStageNumber(path).value.s == s && FindStageNumber(path).value.d <= j)
    {
      assert MatchesLabel(path, j, e);
      var m := FindStageNumber(path).value;
      assert m.s == 0 || path[m.s - 1] == '\n';
    }
  }

  // ----- decimal numbers -----

  /** The value of a string of decimal digits. */
  function DigitsValue(s: string): nat
    requires AllDigits(s)
  {
    if s == [] then 0 else DigitsValue(s[..|s| - 1]) * 10 + (s[|s| - 1] as int - '0' as int)
  }

  function DigitChar(k: nat): (c: char)
    requires k < 10
    ensures IsDigit(c) && c as int - '0' as int == k
  {
    (k + '0' as int) as char
  }

  /** The decimal form of n without leading zeros, as str(n) writes it. */
  function Decimal(n: nat): (s: string)
    ensures |s| >= 1 && AllDigits(s)
    ensures s[0] != '0' || n == 0
  {
    if n < 10 then [DigitChar(n)] else Decimal(n / 10) + [DigitChar(n % 10)]
  }

  /** Reading back the decimal form of n gives n. */
  lemma {:induction false} DecimalRoundTrip(n: nat)
    ensures DigitsValue(Decimal(n)) == n
  {
    if n >= 10 {
      DecimalRoundTrip(n / 10);
      var s := Decimal(n);
      assert s[..|s| - 1] == Decimal(n / 10);
    }
  }

  function Zeros(k: nat): (z: string)
    ensures |z| == k && AllDigits(z)
    ensures forall i :: 0 <= i < k ==> z[i] == '0'
  {
    if k == 0 then [] else Zeros(k - 1) + ['0']
  }

  /** s padded on the left with '0' to at least width characters, as str.zfill pads a string of digits. */
  function ZFill(s: string, width: nat): (r: string)
  {
    if |s| >= width then s else Zeros(width - |s|) + s
  }

  /** Zero padding keeps the digits at the right, reaches the width, and only ever adds '0'. */
  lemma ZFillShape(s: string, width: nat)
    ensures |ZFill(s, width)| == Max(|s|, width)
    ensures ZFill(s, width)[|ZFill(s, width)| - |s|..] == s
    ensures forall i :: 0 <= i < |ZFill(s, width)| - |s| ==> ZFill(s, width)[i] == '0'
  {
  }

  /** Leading zeros do not change the value of a string of digits. */
  lemma {:induction false} LeadingZerosValue(k: nat, s: string)
    requires AllDigits(s)
    ensures AllDigits(Zeros(k) + s) && DigitsValue(Zeros(k) + s) == DigitsValue(s)
    decreases |s|
  {
    var z := Zeros(k) + s;
    if s == [] {
      assert z == Zeros(k);
      ZerosValue(k);
    } else {
      LeadingZerosValue(k, s[..|s| - 1]);
      assert z[..|z| - 1] == Zeros(k) + s[..|s| - 1];
    }
  }

  lemma {:induction false} ZerosValue(k: nat)
    ensures DigitsValue(Zeros(k)) == 0
  {
    if k > 0 {
      ZerosValue(k - 1);
      var z := Zeros(k);
      assert z[..k - 1] == Zeros(k - 1);
    }
  }

  /** The digits that replace num: its value plus one, padded with zeros to num's width. */
  function NextNumber(num: string): (next: string)
    requires AllDigits(num)
  {
    ZFill(Decimal(DigitsValue(num) + 1), |num|)
  }

  /** The new digits read as the old value plus one, and are at least as wide as the old ones. */
  lemma NextNumberValue(num: string)
    requires AllDigits(num)
    ensures AllDigits(NextNumber(num))
    ensures DigitsValue(NextNumber(num)) == DigitsValue(num) + 1
    ensures |NextNumber(num)| == Max(|num|, |Decimal(DigitsValue(num) + 1)|)
  {
    var dec := Decimal(DigitsValue(num) + 1);
    DecimalRoundTrip(DigitsValue(num) + 1);
    ZFillShape(dec, |num|);
    ZFillValue(dec, |num|);
  }

  /** Zero padding keeps a string of digits all digits, with the same value. */
  lemma ZFillValue(s: string, width: nat)
    requires AllDigits(s)
    ensures AllDigits(ZFill(s, width)) && DigitsValue(ZFill(s, width)) == DigitsValue(s)
  {
    if |s| < width {
      LeadingZerosValue(width - |s|, s);
    }
  }

  // ----- the two helpers -----

  /**
   * The path of the next stage: the stage number before ".json" stepped by
   * one, the text of the matched line before it kept, and the path returned
   * as it is when it has no stage number.
   */
  function NextStagePath(path: string): (next: string)
    ensures FindStageNumber(path).None? ==> next == path
    ensures FindStageNumber(path).Some? ==> |next| >= 6 && MatchesLabel(next, |next| - 6, |next|)
  {
    match FindStageNumber(path)
    case None => path
    case Some(m) =>
      assert AllDigits(path[m.d..m.t]);
      NextNumberValue(path[m.d..m.t]);
      path[m.s..m.d] + NextNumber(path[m.d..m.t]) + JsonSuffix
  }

  /** Without a stage number the path comes back unchanged. */
  lemma NextStagePathNoNumber(path: string)
    requires forall s: nat, j: nat, e: nat :: !MatchesNext(path, s, j, e)
    ensures NextStagePath(path) == path
  {
    NextMatchIsFirst(path);
  }

  /**
   * On a one-line path with a stage number, the next path keeps everything
   * before the digits and the ".json" suffix, and puts the next number in
   * their place.
   */
  lemma NextStagePathReplacesNumber(path: string, s: nat, j: nat, e: nat)
    requires '\n' !in path
    requires MatchesNext(path, s, j, e)
    ensures var m := FindStageNumber(path).value;
      && FindStageNumber(path).Some?
      && path == path[..m.d] + path[m.d..m.t] + JsonSuffix
      && AllDigits(path[m.d..m.t])
      && NextStagePath(path) == path[..m.d] + NextNumber(path[m.d..m.t]) + JsonSuffix
  {
    NextMatchIsFirst(path);
    var m := FindStageNumber(path).value;
    assert forall i :: 0 <= i < |path| ==> path[i] != '\n';
    assert path[m.t..] == JsonSuffix;
    assert path == path[..m.d] + path[m.d..m.t] + path[m.t..];
  }

  /** "009" steps to "010", keeping its width; "999" steps to "1000", growing by one digit. */
  lemma NextNumberExamples()
    ensures NextNumber("009") == "010"
    ensures NextNumber("999") == "1000"
  {
    assert "009"[..2] == "00" && "00"[..1] == "0" && "0"[..0] == [];
    assert DigitsValue("009") == 9;
    assert Decimal(10) == "10";
    assert "999"[..2] == "99" && "99"[..1] == "9" && "9"[..0] == [];
    assert DigitsValue("999") == 999;
    assert Decimal(1000) == "1000";
  }

  lemma NextStagePathExamples()
    ensures NextStagePath("s009.json") == "s010.json"
    ensures NextStagePath("s01.txt") == "s01.txt"
  {
    var p := "s009.json";
    assert MatchEnd(p) == Some(9);
    assert DigitRunStart(p, 4) == 1;
    assert FindStageNumber(p) == Some(StageNumber(0, 1, 4));
    assert p[1..4] == "009";
    NextNumberExamples();
    var q := "s01.txt";
    assert MatchEnd(q) == None;
  }

  /**
   * The label of a stage: its name when the stage data has one, else
   * "Stage " and the digits before ".json" as they are written, else the
   * path itself.
   */
  function StageLabelFrom(name: Option<string>, path: string): (shown: string)
    ensures name.Some? ==> shown == name.value
    ensures name.None? && FindStageNumber(path).None? ==> shown == path
    ensures name.None? && FindStageNumber(path).Some? ==> |shown| > 6 && shown[..6] == "Stage " && AllDigits(shown[6..])
  {
    if name.Some? then name.value
    else
      match FindStageNumber(path)
      case None => path
      case Some(m) => "Stage " + path[m.d..m.t]
  }

  /** The label is the name when there is one, else the leftmost stage number, else the path. */
  lemma StageLabelSpec(name: Option<string>, path: string)
    ensures name.Some? ==> StageLabelFrom(name, path) == name.value
    ensures name.None? && (forall j: nat, e: nat :: !MatchesLabel(path, j, e)) ==> StageLabelFrom(name, path) == path
    ensures forall j: nat, e: nat :: name.None? && MatchesLabel(path, j, e) ==>
      exists j0: nat :: j0 <= j && MatchesLabel(path, j0, e) && StageLabelFrom(name, path) == "Stage " + path[j0..e - 5]
  {
    LabelMatchIsLeftmost(path);
  }
}
