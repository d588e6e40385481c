/**
 * Choosing a subtitle track from the text that `yt-dlp --list-subs` prints.
 *
 * The listing has a manual section ("Available subtitles ...") and an
 * automatic one ("Automatic captions ..."); each data row is
 * `<langCode> <formats>`. A scan of the lines fills four availability flags,
 * and a fixed priority picks one (language, isAuto) pair from them. The scan
 * is the `while` loop of YtSubtitlesLoaderImpl.selectPreferredSubtitles; the
 * process that prints the listing is abstracted to its captured stdout lines
 * and exit code.
 */
module TrackSelection {
  import opened Wrappers
  import opened JavaStrings

  /** SubtitlesLang: the two languages the loader asks for. */
  datatype Lang = RU | EN

  function LangCode(l: Lang): string {
    match l
    case RU => "ru"
    case EN => "en"
  }

  /** The four flags: for each language and origin, whether a vtt track was listed. */
  datatype Availability = Availability(ruManual: bool, ruAuto: bool, enManual: bool, enAuto: bool)

  /** What the scan carries from one line to the next. */
  datatype ScanState = ScanState(inAutomaticSection: bool, avail: Availability)

  const NoTracks := Availability(false, false, false, false)
  const Start := ScanState(false, NoTracks)

  predicate Has(a: Availability, lang: Lang, isAuto: bool) {
    match (lang, isAuto)
    case (RU, false) => a.ruManual
    case (RU, true) => a.ruAuto
    case (EN, false) => a.enManual
    case (EN, true) => a.enAuto
  }

  /** Sets the one flag of (lang, isAuto) and leaves the others. */
  function Mark(a: Availability, lang: Lang, isAuto: bool): Availability {
    match (lang, isAuto)
    case (RU, false) => a.(ruManual := true)
    case (RU, true) => a.(ruAuto := true)
    case (EN, false) => a.(enManual := true)
    case (EN, true) => a.(enAuto := true)
  }

  /** How a listing line is read. */
  datatype LineKind = EntersAutomatic | EntersManual | Row(lang: Lang) | Ignored

  predicate IsSectionSwitch(k: LineKind) {
    k.EntersAutomatic? || k.EntersManual?
  }

  /** A language code counts as Russian when it is "ru" or "ru-<variant>". */
  predicate IsRuCode(code: string) {
    code == "ru" || StartsWith(code, "ru-")
  }

  /** A language code counts as English when it is "en" or "en-<variant>". */
  predicate IsEnCode(code: string) {
    code == "en" || StartsWith(code, "en-")
  }

  /**
   * The language a data row advertises a vtt track for: the token before the
   * first space of the trimmed line (that space not at index 0), which is not
   * the header word "language", whose remainder mentions "vtt", and which is a
   * ru variant (checked first) or an en variant.
   */
  function RowLang(line: string): Option<Lang> {
    var trimmed := Trim(line);
    var firstSpace := IndexOf(trimmed, ' ');
    if firstSpace <= 0 then None
    else
      var langCode := Trim(trimmed[..firstSpace]);
      var formats := ToLower(trimmed[firstSpace..]);
      if langCode == "language" || !Contains(formats, "vtt") then None
      else if IsRuCode(langCode) then Some(RU)
      else if IsEnCode(langCode) then Some(EN)
      else None
  }

  /** The header of the automatic section, in any letter case. */
  predicate IsAutomaticHeader(line: string) {
    Contains(ToLower(line), "automatic captions")
  }

  /** The header of the manual section, in any letter case. */
  predicate IsManualHeader(line: string) {
    Contains(ToLower(line), "available subtitles")
  }

  /** Section headers are recognised first and are never data rows. */
  function Classify(line: string): LineKind {
    if IsAutomaticHeader(line) then EntersAutomatic
    else if IsManualHeader(line) then EntersManual
    else match RowLang(line)
      case Some(l) => Row(l)
      case None => Ignored
  }

  /** The effect of one line on the scan, given how the line reads. */
  function StepKind(st: ScanState, k: LineKind): ScanState {
    match k
    case EntersAutomatic => st.(inAutomaticSection := true)
    case EntersManual => st.(inAutomaticSection := false)
    case Row(l) => st.(avail := Mark(st.avail, l, st.inAutomaticSection))
    case Ignored => st
  }

  function Step(st: ScanState, line: string): ScanState {
    StepKind(st, Classify(line))
  }

  /** How each line of a listing reads. */
  function Kinds(lines: seq<string>): (ks: seq<LineKind>)
    ensures |ks| == |lines|
    ensures forall i :: 0 <= i < |lines| ==> ks[i] == Classify(lines[i])
  {
    seq(|lines|, i requires 0 <= i < |lines| => Classify(lines[i]))
  }

  /** The state after reading lines of the given kinds from the start, defined by the last one. */
  function ScanKinds(ks: seq<LineKind>): ScanState
    decreases |ks|
  {
    if |ks| == 0 then Start else StepKind(ScanKinds(ks[..|ks| - 1]), ks[|ks| - 1])
  }

  /** The state after reading kinds from `st`, first to last. */
  function ScanKindsFrom(st: ScanState, ks: seq<LineKind>): ScanState
    decreases |ks|
  {
    if |ks| == 0 then st else ScanKindsFrom(StepKind(st, ks[0]), ks[1..])
  }

  /** The state after scanning a whole listing. */
  function Scan(lines: seq<string>): ScanState {
    ScanKinds(Kinds(lines))
  }

  /** ru manual -> ru auto -> en manual -> en auto: a lower rank wins. */
  function Rank(lang: Lang, isAuto: bool): nat {
    (if lang == RU then 0 else 2) + (if isAuto then 1 else 0)
  }

  /**
   * The priority choice: the pair it returns is available and no pair of a
   * better rank is; it returns nothing exactly when no flag is set.
   */
  function Choose(a: Availability): (r: Option<(Lang, bool)>)
    ensures r.Some? ==> Has(a, r.value.0, r.value.1)
    ensures r.Some? ==> forall l, b :: Rank(l, b) < Rank(r.value.0, r.value.1) ==> !Has(a, l, b)
    ensures r.None? <==> forall l, b :: !Has(a, l, b)
  {
    if a.ruManual then assert Has(a, RU, false); Some((RU, false))
    else if a.ruAuto then assert Has(a, RU, true); Some((RU, true))
    else if a.enManual then assert Has(a, EN, false); Some((EN, false))
    else if a.enAuto then assert Has(a, EN, true); Some((EN, true))
    else None
  }

  /**
   * What running the listing process produced: its stdout lines and exit
   * code, or an exception anywhere while starting or reading it.
   */
  datatype ListingOutcome = Listed(stdout: seq<string>, exitCode: int) | ListingFailed

  function SelectSpec(o: ListingOutcome): Option<(Lang, bool)> {
    match o
    case ListingFailed => None
    case Listed(lines, exitCode) => if exitCode != 0 then None else Choose(Scan(lines).avail)
  }

  /**
   * The data-row part of the loop body: trims the line, cuts it at the first
   * space, and tests the code and the formats. Each `continue` of the source
   * returns None.
   */
  method ParseRow(line: string) returns (lang: Option<Lang>)
    ensures lang == RowLang(line)
  {
    var trimmed := Trim(line);
    if |trimmed| == 0 {
      return None;
    }
    var firstSpace := IndexOf(trimmed, ' ');
    if firstSpace <= 0 {
      return None;
    }
    var langCode := Trim(trimmed[..firstSpace]);
    var formats := ToLower(trimmed[firstSpace..]);
    if langCode == "language" {
      return None;
    }
    if !Contains(formats, "vtt") {
      return None;
    }
    if IsRuCode(langCode) {
      return Some(RU);
    } else if IsEnCode(langCode) {
      return Some(EN);
    }
    return None;
  }

  /**
   * The tests of the loop body of selectPreferredSubtitles in their order:
   * the two section headers, then the data-row parse.
   */
  method ClassifyLine(line: string) returns (k: LineKind)
    ensures k == Classify(line)
  {
    if IsAutomaticHeader(line) {
      return EntersAutomatic;
    }
    if IsManualHeader(line) {
      return EntersManual;
    }
    var lang := ParseRow(line);
    if lang.Some? {
      return Row(lang.value);
    }
    return Ignored;
  }

  /** selectPreferredSubtitles over an already captured listing. */
  method SelectPreferredSubtitles(listing: ListingOutcome) returns (r: Option<(Lang, bool)>)
    ensures r == SelectSpec(listing)
  {
    if listing.ListingFailed? {
      return None;
    }
    var lines := listing.stdout;
    var inAutomaticSection := false;
    var ruManualVtt, ruAutoVtt, enManualVtt, enAutoVtt := false, false, false, false;
    ghost var kinds := Kinds(lines);
    for n := 0 to |lines|
      invariant ScanState(inAutomaticSection, Availability(ruManualVtt, ruAutoVtt, enManualVtt, enAutoVtt)) == ScanKinds(kinds[..n])
    {
      assert kinds[..n + 1][..n] == kinds[..n];
      var kind := ClassifyLine(lines[n]);
      match kind
      case EntersAutomatic =>
        inAutomaticSection := true;
      case EntersManual =>
        inAutomaticSection := false;
      case Row(RU) =>
        if inAutomaticSection {
          ruAutoVtt := true;
        } else {
          ruManualVtt := true;
        }
      case Row(EN) =>
        if inAutomaticSection {
          enAutoVtt := true;
        } else {
          enManualVtt := true;
        }
      case Ignored =>
    }
    assert kinds[..|lines|] == kinds;
    if listing.exitCode != 0 {
      return None;
    }
    if ruManualVtt {
      return Some((RU, false));
    }
    if ruAutoVtt {
      return Some((RU, true));
    }
    if enManualVtt {
      return Some((EN, false));
    }
    if enAutoVtt {
      return Some((EN, true));
    }
    return None;
  }

  // ----- Properties of the scan -----

  /** Scanning a concatenation is scanning the second part from the state the first part leaves. */
  lemma {:induction false} ScanKindsAppend(a: seq<LineKind>, b: seq<LineKind>)
    ensures ScanKinds(a + b) == ScanKindsFrom(ScanKinds(a), b)
    decreases |b|
  {
    if |b| == 0 {
      assert a + b == a;
    } else {
      ScanKindsAppend(a + [b[0]], b[1..]);
      assert a + b == (a + [b[0]]) + b[1..];
      assert (a + [b[0]])[..|a|] == a;
    }
  }

  /** The kinds of a prefix are the prefix of the kinds. */
  lemma KindsPrefix(lines: seq<string>, n: nat)
    requires n <= |lines|
    ensures Kinds(lines[..n]) == Kinds(lines)[..n]
  {
  }

  lemma KindsAppend(a: seq<string>, b: seq<string>)
    ensures Kinds(a + b) == Kinds(a) + Kinds(b)
  {
  }

  /** Reading a line twice in a row has the effect of reading it once, whatever it is. */
  lemma StepKindIdempotent(st: ScanState, k: LineKind)
    ensures StepKind(StepKind(st, k), k) == StepKind(st, k)
  {
  }

  /**
   * Repeated rows are idempotent: a line that appears twice in a row anywhere
   * in the listing can be read once with the same outcome.
   */
  lemma RepeatedLineIdempotent(a: seq<string>, line: string, b: seq<string>)
    ensures Scan(a + [line, line] + b) == Scan(a + [line] + b)
  {
    var k := Classify(line);
    var ka, kb := Kinds(a), Kinds(b);
    KindsAppend(a + [line, line], b);
    KindsAppend(a, [line, line]);
    KindsAppend(a + [line], b);
    KindsAppend(a, [line]);
    assert Kinds([line, line]) == [k, k];
    assert Kinds([line]) == [k];
    ScanKindsAppend(ka + [k, k], kb);
    ScanKindsAppend(ka + [k], kb);
    assert (ka + [k, k])[..|ka| + 1] == ka + [k];
    assert (ka + [k])[..|ka|] == ka;
    StepKindIdempotent(ScanKinds(ka), k);
  }

  predicate AvailLe(a: Availability, b: Availability) {
    forall l, t :: Has(a, l, t) ==> Has(b, l, t)
  }

  /** Flags only ever go from false to true as more kinds are read. */
  lemma {:induction false} ScanKindsMonotone(a: seq<LineKind>, b: seq<LineKind>)
    ensures AvailLe(ScanKinds(a).avail, ScanKinds(a + b).avail)
    decreases |b|
  {
    if |b| == 0 {
      assert a + b == a;
    } else {
      ScanKindsMonotone(a, b[..|b| - 1]);
      assert (a + b)[..|a + b| - 1] == a + b[..|b| - 1];
    }
  }

  /** Flags only ever go from false to true: more listing lines never clear one. */
  lemma ScanMonotone(a: seq<string>, b: seq<string>)
    ensures AvailLe(Scan(a).avail, Scan(a + b).avail)
  {
    KindsAppend(a, b);
    ScanKindsMonotone(Kinds(a), Kinds(b));
  }

  /**
   * Over kinds: a flag is set exactly when some row of that language is read
   * while the scan is in that section.
   */
  lemma {:induction false} ScanKindsHasIff(ks: seq<LineKind>, lang: Lang, isAuto: bool)
    ensures Has(ScanKinds(ks).avail, lang, isAuto) <==>
      exists i :: 0 <= i < |ks| && ks[i] == Row(lang) && ScanKinds(ks[..i]).inAutomaticSection == isAuto
    decreases |ks|
  {
    if |ks| > 0 {
      var n := |ks| - 1;
      var init := ks[..n];
      ScanKindsHasIff(init, lang, isAuto);
      assert forall i :: 0 <= i < n ==> ks[..i] == init[..i] && ks[i] == init[i];
      assert ks[..n] == init;
    }
  }

  /**
   * A flag is set exactly when some data row of that language occurs while
   * the scan of the lines before it is in that section.
   */
  lemma ScanHasIff(lines: seq<string>, lang: Lang, isAuto: bool)
    ensures Has(Scan(lines).avail, lang, isAuto) <==>
      exists i :: 0 <= i < |lines| && Classify(lines[i]) == Row(lang) && Scan(lines[..i]).inAutomaticSection == isAuto
  {
    var ks := Kinds(lines);
    ScanKindsHasIff(ks, lang, isAuto);
    forall i | 0 <= i <= |lines| ensures Scan(lines[..i]) == ScanKinds(ks[..i]) {
      KindsPrefix(lines, i);
    }
  }

  /** Over kinds: the section is automatic exactly when the last switch read entered it. */
  lemma {:induction false} ScanKindsSection(ks: seq<LineKind>)
    ensures ScanKinds(ks).inAutomaticSection <==>
      exists i :: 0 <= i < |ks| && ks[i] == EntersAutomatic &&
        forall j :: i < j < |ks| ==> !IsSectionSwitch(ks[j])
    decreases |ks|
  {
    if |ks| > 0 {
      var n := |ks| - 1;
      var init := ks[..n];
      ScanKindsSection(init);
      assert ks[..n] == init;
      assert forall i :: 0 <= i < n ==> ks[i] == init[i];
      if ScanKinds(ks).inAutomaticSection && !IsSectionSwitch(ks[n]) {
        var i :| 0 <= i < n && init[i] == EntersAutomatic &&
          forall j :: i < j < n ==> !IsSectionSwitch(init[j]);
        assert forall j :: i < j < |ks| ==> !IsSectionSwitch(ks[j]);
      }
      if exists i :: 0 <= i < |ks| && ks[i] == EntersAutomatic &&
          forall j :: i < j < |ks| ==> !IsSectionSwitch(ks[j]) {
        var i :| 0 <= i < |ks| && ks[i] == EntersAutomatic &&
          forall j :: i < j < |ks| ==> !IsSectionSwitch(ks[j]);
        if i < n {
          assert init[i] == EntersAutomatic && forall j :: i < j < n ==> !IsSectionSwitch(init[j]);
        }
      }
    }
  }

  /**
   * The scan starts in the manual section and is in the automatic one exactly
   * when some line switched to it and no later line switched sections again.
   */
  lemma ScanSection(lines: seq<string>)
    ensures Scan(lines).inAutomaticSection <==>
      exists i :: 0 <= i < |lines| && Classify(lines[i]) == EntersAutomatic &&
        forall j :: i < j < |lines| ==> !IsSectionSwitch(Classify(lines[j]))
  {
    ScanKindsSection(Kinds(lines));
  }

  /** Lines that switch sections are never data rows and never change a flag. */
  lemma SwitchLineKeepsFlags(st: ScanState, line: string)
    requires Contains(ToLower(line), "automatic captions") || Contains(ToLower(line), "available subtitles")
    ensures IsSectionSwitch(Classify(line))
    ensures Step(st, line).avail == st.avail
    ensures Step(st, line).inAutomaticSection == Contains(ToLower(line), "automatic captions")
  {
  }

  /** A failed or non-zero-exit listing selects nothing, whatever its lines say. */
  lemma ListingFailureSelectsNothing(o: ListingOutcome)
    requires o.ListingFailed? || o.exitCode != 0
    ensures SelectSpec(o) == None
  {
  }

  /** What a data row `<code> <formats>` means, for a code token without blanks or controls. */
  predicate IsCodeToken(code: string) {
    |code| > 0 && forall i :: 0 <= i < |code| ==> !IsTrimmable(code[i])
  }

  /**
   * A row `<code> <formats>` advertises a Russian vtt track exactly when the
   * code is ru or ru-* and the formats mention "vtt" in any letter case, and
   * an English one exactly when the code is en or en-* and the formats do;
   * any other row, the "language" header row included, advertises nothing.
   */
  lemma RowLangParts(code: string, fmts: string)
    requires IsCodeToken(code)
    ensures RowLang(code + " " + fmts) == Some(RU) <==> IsRuCode(code) && Contains(ToLower(fmts), "vtt")
    ensures RowLang(code + " " + fmts) == Some(EN) <==> IsEnCode(code) && Contains(ToLower(fmts), "vtt")
    ensures RowLang(code + " " + fmts).None? <==>
      (!IsRuCode(code) && !IsEnCode(code)) || !Contains(ToLower(fmts), "vtt")
  {
    RowLangCases(code, fmts);
    ChainMeaning(RowLang(code + " " + fmts), code, Contains(ToLower(fmts), "vtt"));
  }

  /** What the if-chain of the row test decides, once the code and the vtt test are known. */
  lemma ChainMeaning(r: Option<Lang>, code: string, vtt: bool)
    requires r == if code == "language" || !vtt then None
      else if IsRuCode(code) then Some(RU)
      else if IsEnCode(code) then Some(EN)
      else None
    ensures r == Some(RU) <==> IsRuCode(code) && vtt
    ensures r == Some(EN) <==> IsEnCode(code) && vtt
    ensures r.None? <==> (!IsRuCode(code) && !IsEnCode(code)) || !vtt
  {
    CodesExclusive(code);
  }

  /** No code is both a ru and an en variant, and the header word "language" is neither. */
  lemma CodesExclusive(code: string)
    ensures !(IsRuCode(code) && IsEnCode(code))
    ensures code == "language" ==> !IsRuCode(code) && !IsEnCode(code)
  {
    assert IsRuCode(code) ==> code[0] == 'r';
    assert IsEnCode(code) ==> code[0] == 'e';
  }

  /** The row read as the loop reads it, with the formats tested before trimming. */
  lemma RowLangCases(code: string, fmts: string)
    requires IsCodeToken(code)
    ensures RowLang(code + " " + fmts) ==
      if code == "language" || !Contains(ToLower(fmts), "vtt") then None
      else if IsRuCode(code) then Some(RU)
      else if IsEnCode(code) then Some(EN)
      else None
  {
    var line := code + " " + fmts;
    var f', tail := RowTrim(code, fmts);
    ToLowerAppend(f', tail);
    ContainsTrailing(ToLower(f'), ToLower(tail), "vtt");
    if Trim(line) == code {
      RowOfCodeOnly(line, code);
      assert !Contains("", "vtt");
    } else {
      RowAfterTrim(line, code, f');
    }
  }

  /**
   * Trimming a row keeps the code and the formats up to their trailing
   * blanks; when the formats are all blanks, only the code is left.
   */
  lemma RowTrim(code: string, fmts: string) returns (f': string, tail: string)
    requires IsCodeToken(code)
    ensures fmts == f' + tail
    ensures forall i :: 0 <= i < |tail| ==> IsTrimmable(ToLower(tail)[i])
    ensures (Trim(code + " " + fmts) == code && f' == "") || Trim(code + " " + fmts) == code + " " + f'
  {
    var line := code + " " + fmts;
    var m := TrimOfRow(code, fmts);
    var k := m - |code| - 1;
    f' := if k >= 0 then fmts[..k] else "";
    tail := if k >= 0 then fmts[k..] else fmts;
    assert fmts == f' + tail;
    forall i | 0 <= i < |tail| ensures IsTrimmable(tail[i]) {
      assert tail[i] == line[|line| - |tail| + i];
    }
    LowerKeepsTrimmable(tail);
    if k >= 0 {
      assert line[..m] == code + " " + f';
    } else {
      assert line[..m] == code;
    }
  }

  lemma LowerKeepsTrimmable(t: string)
    requires forall i :: 0 <= i < |t| ==> IsTrimmable(t[i])
    ensures forall i :: 0 <= i < |t| ==> IsTrimmable(ToLower(t)[i])
  {
  }

  /** Trimming a row that starts with a code token cuts only blanks after the code. */
  lemma TrimOfRow(code: string, fmts: string) returns (m: nat)
    requires IsCodeToken(code)
    ensures |code| <= m <= |code + " " + fmts|
    ensures Trim(code + " " + fmts) == (code + " " + fmts)[..m]
    ensures forall i :: m <= i < |code + " " + fmts| ==> IsTrimmable((code + " " + fmts)[i])
  {
    var line := code + " " + fmts;
    assert line[0] == code[0];
    assert TrimStart(line) == line;
    var r := TrimEnd(line);
    m := |r|;
    assert line[|code| - 1] == code[|code| - 1];
  }

  /** A row trimmed down to the code alone has no space to cut at. */
  lemma RowOfCodeOnly(line: string, code: string)
    requires IsCodeToken(code) && Trim(line) == code
    ensures RowLang(line) == None
  {
    assert ' ' !in code;
  }

  /** A trimmed row `<code> <formats>`, read as the loop reads it. */
  lemma RowAfterTrim(line: string, code: string, f': string)
    requires IsCodeToken(code) && Trim(line) == code + " " + f'
    ensures RowLang(line) ==
      if code == "language" || !Contains(ToLower(f'), "vtt") then None
      else if IsRuCode(code) then Some(RU)
      else if IsEnCode(code) then Some(EN)
      else None
  {
    var r := code + " " + f';
    RowParts(code, f');
    assert Trim(line) == r;
  }

  /** The parts the loop cuts a trimmed row into: the code and the formats with their leading space. */
  lemma RowParts(code: string, f': string)
    requires IsCodeToken(code)
    ensures IndexOf(code + " " + f', ' ') == |code|
    ensures (code + " " + f')[..|code|] == code && Trim(code) == code
    ensures Contains(ToLower((code + " " + f')[|code|..]), "vtt") <==> Contains(ToLower(f'), "vtt")
  {
    var r := code + " " + f';
    assert ' ' !in code;
    assert r == code + (" " + f');
    IndexOfAppend(code, " " + f', ' ');
    assert IndexOf(" " + f', ' ') == 0;
    assert TrimStart(code) == code;
    assert r[|code|..] == " " + f';
    ToLowerAppend(" ", f');
    assert ToLower(" ") == " ";
    ContainsAfterSpace(ToLower(f'), "vtt");
  }

  /**
   * The section headers switch the section wherever they stand in a line and
   * in any letter case; the automatic one is tested first.
   */
  lemma SectionHeadersSwitch(pre: string, header: string, post: string)
    ensures ToLower(header) == "automatic captions" ==> Classify(pre + header + post) == EntersAutomatic
    ensures ToLower(header) == "available subtitles" && !IsAutomaticHeader(pre + header + post)
      ==> Classify(pre + header + post) == EntersManual
  {
    ToLowerAppend(pre + header, post);
    ToLowerAppend(pre, header);
    ContainsInfix(ToLower(pre), ToLower(header), ToLower(post));
  }
}
