/**
 * The WebVTT cleaner of YtSubtitlesLoaderImpl.cleanSubtitles.
 *
 * Each line goes through a fixed chain of `String.replaceAll` rewrites (cue
 * tags, cue timestamps, the `-->` timing arrow with the rest of its line,
 * WebVTT cue settings, control characters, whitespace runs), then `trim`.
 * Lines that end up empty are dropped. Last, when the raw file begins with
 * the `WEBVTT` / `Kind: ` / `Language: ` header, the first three and the
 * last cleaned lines are cut off with `List.subList`, which fails when fewer
 * than four cleaned lines are left.
 *
 * A regular expression is modelled by the length of its leftmost, greedy
 * match at the start of a string (0 for no match); ReplaceAll scans the
 * string as java.util.regex.Matcher.replaceAll does. All character classes are
 * the ASCII ones Java uses by default.
 */
module VttCleaner {
  import opened Wrappers
  import opened JavaStrings

  // ----- Character classes -----

  /** `\s`: space, tab, newline, vertical tab, form feed, carriage return. */
  predicate IsSpace(c: char) {
    c == ' ' || c == '\t' || c == '\n' || c == 11 as char || c == 12 as char || c == '\r'
  }

  /** The characters `.` does not match: the line terminators of java.util.regex.Pattern. */
  predicate IsLineTerminator(c: char) {
    c == '\n' || c == '\r' || c == 0x85 as char || c == 0x2028 as char || c == 0x2029 as char
  }

  /** `[\p{Cntrl}&&[^\r\n\t]]`: an ASCII control character other than CR, LF and TAB. */
  predicate IsStrippedControl(c: char) {
    (c < ' ' || c == 127 as char) && c != '\r' && c != '\n' && c != '\t'
  }

  /** The length of the longest prefix of s whose characters all satisfy p. */
  function RunLength(s: string, p: char -> bool): (n: nat)
    ensures n <= |s|
    ensures forall i :: 0 <= i < n ==> p(s[i])
    ensures n < |s| ==> !p(s[n])
    decreases |s|
  {
    if |s| > 0 && p(s[0]) then 1 + RunLength(s[1..], p) else 0
  }

  // ----- Matcher.replaceAll -----

  /**
   * Every match of the pattern replaced, scanning left to right: where the
   * pattern matches at the current position (matchAt gives the length of
   * that match) the replacement is emitted and the scan resumes after the
   * match; otherwise the current character is kept and the scan moves on by
   * one. The patterns here never match the empty string.
   */
  function ReplaceAll(s: string, matchAt: string -> nat, replacement: string): string
    decreases |s|
  {
    if |s| == 0 then ""
    else
      var n := matchAt(s);
      if 0 < n <= |s| then replacement + ReplaceAll(s[n..], matchAt, replacement)
      else [s[0]] + ReplaceAll(s[1..], matchAt, replacement)
  }

  /** Where the scan goes from the first position. */
  lemma ReplaceAllStep(s: string, matchAt: string -> nat, replacement: string)
    requires |s| > 0
    ensures 0 < matchAt(s) <= |s| ==>
      ReplaceAll(s, matchAt, replacement) == replacement + ReplaceAll(s[matchAt(s)..], matchAt, replacement)
    ensures !(0 < matchAt(s) <= |s|) ==>
      ReplaceAll(s, matchAt, replacement) == [s[0]] + ReplaceAll(s[1..], matchAt, replacement)
  {
  }

  // ----- The patterns -----

  /** `<[^>]+>`: a '<', at least one character other than '>', and the first '>' after them. */
  function TagMatch(s: string): (n: nat)
    ensures n <= |s|
    ensures n > 0 ==> n >= 3 && s[0] == '<' && s[n - 1] == '>' && '>' !in s[1..n - 1]
  {
    if |s| > 0 && s[0] == '<' then
      var k := IndexOf(s[1..], '>');
      if k >= 1 then
        assert s[1..][..k] == s[1..k + 1];
        k + 2
      else 0
    else 0
  }

  /**
   * The tag pattern matches exactly when the character after '<' is not '>'
   * and some '>' follows it.
   */
  lemma TagMatchIff(s: string)
    ensures TagMatch(s) > 0 <==> |s| >= 3 && s[0] == '<' && s[1] != '>' && '>' in s[2..]
  {
    if |s| >= 2 {
      assert s[1..] == [s[1]] + s[2..];
    }
  }

  /** A cue timestamp such as 00:00:01.000: hh:mm:ss.mmm, all digits. */
  predicate IsCueTimestamp(t: string) {
    |t| == 12
    && (forall i :: 0 <= i < 12 && i != 2 && i != 5 && i != 8 ==> IsDigit(t[i]))
    && t[2] == ':' && t[5] == ':' && t[8] == '.'
  }

  /** `\d{2}:\d{2}:\d{2}\.\d{3}`: a cue timestamp, matched exactly when the string starts with one. */
  function TimestampMatch(s: string): (n: nat)
    ensures n == 0 || n == 12
    ensures n <= |s|
    ensures n == 12 <==> |s| >= 12 && IsCueTimestamp(s[..12])
  {
    if |s| >= 12
      && IsDigit(s[0]) && IsDigit(s[1]) && s[2] == ':'
      && IsDigit(s[3]) && IsDigit(s[4]) && s[5] == ':'
      && IsDigit(s[6]) && IsDigit(s[7]) && s[8] == '.'
      && IsDigit(s[9]) && IsDigit(s[10]) && IsDigit(s[11])
    then 12
    else 0
  }

  predicate NotLineTerminator(c: char) {
    !IsLineTerminator(c)
  }

  /** `-->.*`: the arrow and everything after it up to the end of the line. */
  function ArrowMatch(s: string): (n: nat)
    ensures n <= |s|
    ensures n > 0 <==> StartsWith(s, "-->")
    ensures n > 0 ==> n >= 3 && (n == |s| || IsLineTerminator(s[n]))
    ensures forall i :: 3 <= i < n ==> !IsLineTerminator(s[i])
  {
    if |s| >= 3 && s[0] == '-' && s[1] == '-' && s[2] == '>' then 3 + RunLength(s[3..], NotLineTerminator)
    else 0
  }

  /**
   * The shape of `align:\w+ position:\d+%` with a word of w characters and
   * a number of d digits.
   */
  predicate AlignShape(s: string, w: nat, d: nat) {
    w >= 1 && d >= 1 && 17 + w + d <= |s|
    && StartsWith(s, "align:")
    && (forall i :: 6 <= i < 6 + w ==> IsWordChar(s[i]))
    && s[6 + w..16 + w] == " position:"
    && (forall i :: 16 + w <= i < 16 + w + d ==> IsDigit(s[i]))
    && s[16 + w + d] == '%'
  }

  /**
   * `align:\w+ position:\d+%`, a WebVTT cue setting. Because `\w` excludes the
   * space and `\d` excludes '%', Java's backtracking cannot change which runs
   * the two `+` take: both are maximal, so a string has at most one shape and
   * the match is exactly that shape.
   */
  function AlignMatch(s: string): (n: nat)
    ensures n <= |s|
    ensures n > 0 ==> StartsWith(s, "align:")
    ensures n > 0 ==> exists w: nat, d: nat :: AlignShape(s, w, d) && n == 17 + w + d
    ensures forall w: nat, d: nat :: AlignShape(s, w, d) ==> n == 17 + w + d
  {
    if StartsWith(s, "align:") then
      var w := RunLength(s[6..], IsWordChar);
      AlignWordUnique(s, w);
      if w >= 1 && StartsWith(s[6 + w..], " position:") then
        var d := RunLength(s[16 + w..], IsDigit);
        AlignDigitsUnique(s, w, d);
        if d >= 1 && 16 + w + d < |s| && s[16 + w + d] == '%' then
          assert s[6 + w..][..10] == s[6 + w..16 + w];
          assert AlignShape(s, w, d);
          17 + w + d
        else 0
      else
        assert forall w': nat, d': nat :: AlignShape(s, w', d') ==> w' == w && s[6 + w..][..10] == s[6 + w..16 + w];
        0
    else 0
  }

  /** Any word length of a shape is the maximal run of word characters after "align:". */
  lemma AlignWordUnique(s: string, w: nat)
    requires StartsWith(s, "align:") && w == RunLength(s[6..], IsWordChar)
    ensures forall w': nat, d': nat :: AlignShape(s, w', d') ==> w' == w
  {
    forall w': nat, d': nat | AlignShape(s, w', d') ensures w' == w {
      assert s[6 + w'] == " position:"[0];
    }
  }

  /** Any digit count of a shape is the maximal run of digits after " position:". */
  lemma AlignDigitsUnique(s: string, w: nat, d: nat)
    requires 16 + w <= |s| && d == RunLength(s[16 + w..], IsDigit)
    requires forall w': nat, d': nat :: AlignShape(s, w', d') ==> w' == w
    ensures forall w': nat, d': nat :: AlignShape(s, w', d') ==> w' == w && d' == d
  {
  }

  /** One character of `[\p{Cntrl}&&[^\r\n\t]]`. */
  function ControlMatch(s: string): (n: nat)
    ensures n <= |s|
    ensures n > 0 <==> |s| > 0 && IsStrippedControl(s[0])
  {
    if |s| > 0 && IsStrippedControl(s[0]) then 1 else 0
  }

  /** `\s{2,}`: a maximal run of at least two whitespace characters. */
  function SpaceRunMatch(s: string): (n: nat)
    ensures n <= |s|
    ensures n > 0 ==> n >= 2 && (n == |s| || !IsSpace(s[n]))
    ensures forall i :: 0 <= i < n ==> IsSpace(s[i])
    ensures n > 0 <==> |s| >= 2 && IsSpace(s[0]) && IsSpace(s[1])
  {
    var n := RunLength(s, IsSpace);
    if n >= 2 then n else 0
  }

  // ----- The rewrite chain -----

  function StripTags(s: string): string {
    ReplaceAll(s, TagMatch, "")
  }

  function StripTimestamps(s: string): string {
    ReplaceAll(s, TimestampMatch, "")
  }

  function StripArrows(s: string): string {
    ReplaceAll(s, ArrowMatch, "")
  }

  function StripAlign(s: string): string {
    ReplaceAll(s, AlignMatch, "")
  }

  function StripControls(s: string): string {
    ReplaceAll(s, ControlMatch, "")
  }

  function CollapseSpaces(s: string): string {
    ReplaceAll(s, SpaceRunMatch, " ")
  }

  /** The chain of rewrites applied to one line, in the order of the source. */
  function CleanLine(line: string): string {
    Trim(CollapseSpaces(StripControls(StripAlign(StripArrows(StripTimestamps(StripTags(line)))))))
  }

  /** The images under f of the lines, in input order, with the empty ones left out. */
  function NonEmptyImages(f: string -> string, lines: seq<string>): seq<string>
    decreases |lines|
  {
    if |lines| == 0 then []
    else
      var c := f(lines[|lines| - 1]);
      NonEmptyImages(f, lines[..|lines| - 1]) + (if c == "" then [] else [c])
  }

  /** One more line adds its image, when that is non-empty. */
  lemma NonEmptyImagesStep(f: string -> string, lines: seq<string>, i: nat)
    requires i < |lines|
    ensures NonEmptyImages(f, lines[..i + 1])
      == NonEmptyImages(f, lines[..i]) + (if f(lines[i]) == "" then [] else [f(lines[i])])
  {
    assert lines[..i + 1][..i] == lines[..i] && lines[..i + 1][i] == lines[i];
  }

  /** The non-empty cleaned lines, in input order. */
  function CleanAll(lines: seq<string>): seq<string> {
    NonEmptyImages(CleanLine, lines)
  }

  /** Raw lines 0, 1 and 2 open the header that yt-dlp writes. */
  predicate HasVttHeader(lines: seq<string>) {
    |lines| > 3
    && StartsWith(lines[0], "WEBVTT")
    && StartsWith(lines[1], "Kind: ")
    && StartsWith(lines[2], "Language: ")
  }

  /** ArrayList.subList(fromIndex, toIndex) refused its range. */
  datatype CleanError = SubListOutOfRange(fromIndex: int, toIndex: int)

  /**
   * The header skip after the loop: with the header, `subList(3, size - 1)`
   * of the cleaned lines, which throws unless at least four are left;
   * without it, all cleaned lines.
   */
  function SkipHeader(lines: seq<string>, cleaned: seq<string>): Result<seq<string>, CleanError> {
    if HasVttHeader(lines) then
      if |cleaned| >= 4 then Success(cleaned[3..|cleaned| - 1]) else Failure(SubListOutOfRange(3, |cleaned| - 1))
    else Success(cleaned)
  }

  /** What cleanSubtitles returns for the raw lines of a subtitles file. */
  function CleanSpec(lines: seq<string>): Result<seq<string>, CleanError> {
    SkipHeader(lines, CleanAll(lines))
  }

  /** cleanSubtitles: the loop over the lines, then the header skip. */
  method CleanSubtitles(lines: seq<string>) returns (r: Result<seq<string>, CleanError>)
    ensures r == CleanSpec(lines)
  {
    var cleanedLines: seq<string> := [];
    for i := 0 to |lines|
      invariant cleanedLines == CleanAll(lines[..i])
    {
      var cleanedLine := CleanLine(lines[i]);
      NonEmptyImagesStep(CleanLine, lines, i);
      if |cleanedLine| != 0 {
        cleanedLines := cleanedLines + [cleanedLine];
      }
    }
    assert lines[..|lines|] == lines;
    r := SkipHeader(lines, cleanedLines);
  }

  // ----- What the rewrites leave behind -----

  /** No position of s starts a match of `<[^>]+>`, read left to right. */
  predicate TagFree(s: string)
    decreases |s|
  {
    |s| == 0 || (TagMatch(s) == 0 && TagFree(s[1..]))
  }

  /** No two whitespace characters are next to each other. */
  predicate NoDoubleSpace(s: string) {
    forall i :: 0 <= i < |s| - 1 ==> !(IsSpace(s[i]) && IsSpace(s[i + 1]))
  }

  /** A pattern that never matches at a '>'. */
  ghost predicate NeverStartsAtGt(matchAt: string -> nat) {
    forall t :: |t| > 0 && t[0] == '>' ==> matchAt(t) == 0
  }

  /** TagFree says that the tag pattern matches at no position. */
  lemma {:induction false} TagFreeIff(s: string)
    ensures TagFree(s) <==> forall i :: 0 <= i < |s| ==> TagMatch(s[i..]) == 0
    decreases |s|
  {
    if |s| > 0 {
      TagFreeIff(s[1..]);
      assert s[0..] == s;
      assert forall i :: 1 <= i < |s| ==> s[1..][i - 1..] == s[i..];
      if forall i :: 0 <= i < |s| ==> TagMatch(s[i..]) == 0 {
        assert forall i :: 0 <= i < |s| - 1 ==> TagMatch(s[1..][i..]) == 0 by {
          forall i | 0 <= i < |s| - 1 ensures TagMatch(s[1..][i..]) == 0 {
            assert s[1..][i..] == s[i + 1..];
          }
        }
      }
    }
  }

  /** A replacement never produces a character that neither the input nor the replacement holds. */
  lemma {:induction false} ReplaceAllNoChar(s: string, matchAt: string -> nat, replacement: string, c: char)
    requires c !in s && c !in replacement
    ensures c !in ReplaceAll(s, matchAt, replacement)
    decreases |s|
  {
    if |s| > 0 {
      var n := matchAt(s);
      if 0 < n <= |s| {
        ReplaceAllNoChar(s[n..], matchAt, replacement, c);
      } else {
        ReplaceAllNoChar(s[1..], matchAt, replacement, c);
      }
    }
  }

  lemma {:induction false} TagFreeSuffix(s: string, k: nat)
    requires TagFree(s) && k <= |s|
    ensures TagFree(s[k..])
    decreases k
  {
    if k > 0 {
      TagFreeSuffix(s[1..], k - 1);
      assert s[1..][k - 1..] == s[k..];
    } else {
      assert s[0..] == s;
    }
  }

  lemma {:induction false} TagFreePrefix(s: string, k: nat)
    requires TagFree(s) && k <= |s|
    ensures TagFree(s[..k])
    decreases |s|
  {
    var p := s[..k];
    if k > 0 {
      assert p[1..] == s[1..][..k - 1];
      TagFreePrefix(s[1..], k - 1);
      if s[0] == '<' {
        var k1 := IndexOf(s[1..], '>');
        if '>' !in s[1..] {
          assert '>' !in p[1..];
        } else {
          assert k1 == 0;
          if k >= 2 {
            assert p[1..][0] == '>';
          }
        }
      }
    }
  }

  lemma TagFreeInfix(s: string, a: nat, b: nat)
    requires TagFree(s) && a <= b <= |s|
    ensures TagFree(s[a..b])
  {
    TagFreeSuffix(s, a);
    TagFreePrefix(s[a..], b - a);
    assert s[a..][..b - a] == s[a..b];
  }

  /** Characters that cannot open a tag, followed by a tag-free string. */
  lemma {:induction false} TagFreeAppend(a: string, b: string)
    requires '<' !in a && TagFree(b)
    ensures TagFree(a + b)
    decreases |a|
  {
    if |a| == 0 {
      assert a + b == b;
    } else {
      assert (a + b)[1..] == a[1..] + b;
      TagFreeAppend(a[1..], b);
    }
  }

  /** A string that does not open a tag at its first character, in front of a tag-free one. */
  lemma TagFreeCons(c: char, x: string, rest: string)
    requires TagFree(x)
    requires c == '<' ==> '>' !in rest || (|rest| > 0 && rest[0] == '>')
    requires c == '<' && '>' !in rest ==> '>' !in x
    requires c == '<' && '>' in rest ==> |x| > 0 && x[0] == '>'
    ensures TagFree([c] + x)
  {
    var t := [c] + x;
    assert t[1..] == x;
    if c == '<' {
      assert t[1..] == x;
    }
  }

  /** Removing the tags leaves no tag. */
  lemma {:induction false} StripTagsTagFree(s: string)
    ensures TagFree(StripTags(s))
    decreases |s|
  {
    if |s| > 0 {
      var n := TagMatch(s);
      ReplaceAllStep(s, TagMatch, "");
      if n > 0 {
        StripTagsTagFree(s[n..]);
        assert StripTags(s) == StripTags(s[n..]);
      } else {
        StripTagsTagFree(s[1..]);
        KeptCharTagFree(s, TagMatch, "");
      }
    }
  }

  /**
   * A character the scan keeps does not open a tag in the output, given a
   * tag-free rest: it is not '<', or it is a '<' the tag pattern does not match
   * at, whose next '>' (if any) the rewrite keeps right behind it.
   */
  lemma KeptCharTagFree(s: string, matchAt: string -> nat, replacement: string)
    requires |s| > 0 && !(0 < matchAt(s) <= |s|) && TagMatch(s) == 0
    requires '>' !in replacement
    requires |s| > 1 && s[1] == '>' ==> matchAt(s[1..]) == 0
    requires TagFree(ReplaceAll(s[1..], matchAt, replacement))
    ensures TagFree(ReplaceAll(s, matchAt, replacement))
  {
    var x := ReplaceAll(s[1..], matchAt, replacement);
    ReplaceAllStep(s, matchAt, replacement);
    if s[0] == '<' {
      if '>' !in s[1..] {
        ReplaceAllNoChar(s[1..], matchAt, replacement, '>');
      } else {
        assert IndexOf(s[1..], '>') <= 0;
        assert s[1] == '>';
        ReplaceAllStep(s[1..], matchAt, replacement);
        assert x[0] == '>';
      }
    }
    TagFreeCons(s[0], x, s[1..]);
  }

  /** A rewrite that never matches at a '>' and inserts no '<' or '>' keeps a string tag-free. */
  lemma {:induction false} ReplaceAllKeepsTagFree(s: string, matchAt: string -> nat, replacement: string)
    requires TagFree(s)
    requires '<' !in replacement && '>' !in replacement
    requires NeverStartsAtGt(matchAt)
    ensures TagFree(ReplaceAll(s, matchAt, replacement))
    decreases |s|
  {
    if |s| > 0 {
      var n := matchAt(s);
      ReplaceAllStep(s, matchAt, replacement);
      if 0 < n <= |s| {
        TagFreeSuffix(s, n);
        ReplaceAllKeepsTagFree(s[n..], matchAt, replacement);
        TagFreeAppend(replacement, ReplaceAll(s[n..], matchAt, replacement));
      } else {
        ReplaceAllKeepsTagFree(s[1..], matchAt, replacement);
        KeptCharTagFree(s, matchAt, replacement);
      }
    }
  }

  /** The first character of a collapsed string is whitespace exactly when the input's is. */
  lemma CollapseHead(s: string)
    requires |s| > 0
    ensures |CollapseSpaces(s)| > 0
    ensures IsSpace(CollapseSpaces(s)[0]) <==> IsSpace(s[0])
  {
  }

  /** Collapsing the whitespace runs leaves no two whitespace characters side by side. */
  lemma {:induction false} CollapseNoDoubleSpace(s: string)
    ensures NoDoubleSpace(CollapseSpaces(s))
    decreases |s|
  {
    if |s| > 0 {
      var n := SpaceRunMatch(s);
      if n > 0 {
        var x := CollapseSpaces(s[n..]);
        CollapseNoDoubleSpace(s[n..]);
        if n < |s| {
          CollapseHead(s[n..]);
        }
        NoDoubleSpaceCons(' ', x);
      } else {
        var x := CollapseSpaces(s[1..]);
        CollapseNoDoubleSpace(s[1..]);
        if |s| > 1 {
          CollapseHead(s[1..]);
          assert IsSpace(s[0]) ==> !IsSpace(s[1]);
        }
        NoDoubleSpaceCons(s[0], x);
      }
    }
  }

  lemma NoDoubleSpaceCons(c: char, x: string)
    requires NoDoubleSpace(x)
    requires |x| > 0 && IsSpace(c) ==> !IsSpace(x[0])
    ensures NoDoubleSpace([c] + x)
  {
    var t := [c] + x;
    forall i | 0 <= i < |t| - 1 ensures !(IsSpace(t[i]) && IsSpace(t[i + 1])) {
      if i > 0 {
        assert t[i] == x[i - 1] && t[i + 1] == x[i];
      }
    }
  }

  lemma NoDoubleSpaceInfix(s: string, a: nat, b: nat)
    requires NoDoubleSpace(s) && a <= b <= |s|
    ensures NoDoubleSpace(s[a..b])
  {
    var t := s[a..b];
    forall i | 0 <= i < |t| - 1 ensures !(IsSpace(t[i]) && IsSpace(t[i + 1])) {
      assert t[i] == s[a + i] && t[i + 1] == s[a + i + 1];
    }
  }

  /** What the arrow removal leaves at the front: the input's first character, or a line terminator. */
  lemma StripArrowsHead(s: string)
    requires |StripArrows(s)| > 0
    ensures (ArrowMatch(s) == 0 && StripArrows(s)[0] == s[0]) || IsLineTerminator(StripArrows(s)[0])
  {
    var n := ArrowMatch(s);
    ReplaceAllStep(s, ArrowMatch, "");
    if n > 0 {
      var t := s[n..];
      assert StripArrows(s) == StripArrows(t);
      ReplaceAllStep(t, ArrowMatch, "");
    }
  }

  /** The arrow removal on its own leaves no "-->". */
  lemma {:induction false} StripArrowsNoArrow(s: string)
    ensures !Contains(StripArrows(s), "-->")
    decreases |s|
  {
    if |s| > 0 {
      var n := ArrowMatch(s);
      ReplaceAllStep(s, ArrowMatch, "");
      if n > 0 {
        StripArrowsNoArrow(s[n..]);
        assert StripArrows(s) == StripArrows(s[n..]);
      } else {
        StripArrowsNoArrow(s[1..]);
        var x := StripArrows(s[1..]);
        var t := [s[0]] + x;
        assert t[1..] == x;
        KeptCharStartsNoArrow(s);
      }
    }
  }

  /** A character the arrow removal keeps does not start an arrow in the output. */
  lemma KeptCharStartsNoArrow(s: string)
    requires |s| > 0 && ArrowMatch(s) == 0
    ensures !StartsWith([s[0]] + StripArrows(s[1..]), "-->")
  {
    var x := StripArrows(s[1..]);
    var t := [s[0]] + x;
    if StartsWith(t, "-->") {
      assert t[..3] == "-->";
      assert t[0] == '-' && t[1] == '-' && t[2] == '>';
      assert x[0] == t[1] && x[1] == t[2];
      StripArrowsHead(s[1..]);
      ReplaceAllStep(s[1..], ArrowMatch, "");
      var y := StripArrows(s[2..]);
      assert s[1..][1..] == s[2..];
      assert x == [s[1]] + y;
      StripArrowsHead(s[2..]);
      assert false;
    }
  }

  /** None of the patterns after the tag removal starts at a '>'. */
  lemma LaterPatternsNeverStartAtGt()
    ensures NeverStartsAtGt(TimestampMatch)
    ensures NeverStartsAtGt(ArrowMatch)
    ensures NeverStartsAtGt(AlignMatch)
    ensures NeverStartsAtGt(ControlMatch)
    ensures NeverStartsAtGt(SpaceRunMatch)
  {
    forall t | |t| > 0 && t[0] == '>' ensures AlignMatch(t) == 0 {
      if |t| >= 6 {
        assert t[..6][0] == t[0];
      }
    }
    forall t | |t| > 0 && t[0] == '>' ensures SpaceRunMatch(t) == 0 {
      assert RunLength(t, IsSpace) == 0;
    }
  }

  /**
   * A later rewrite can make "-->" again: the control character between "--"
   * and ">" hides the arrow from the arrow removal and is itself removed after it.
   */
  lemma ArrowReappears()
    ensures var line := "--" + [1 as char] + ">";
      !Contains(StripArrows(line), "-->") && CleanLine(line) == "-->"
  {
    var line := "--" + [1 as char] + ">";
    StripArrowsNoArrow(line);
    HiddenArrowKept(line);
    HiddenArrowControlRemoved(line);
    NoMatchKeeps("-->", SpaceRunMatch, " ");
  }

  lemma HiddenArrowKept(line: string)
    requires line == "--" + [1 as char] + ">"
    ensures StripTags(line) == line && StripTimestamps(line) == line
    ensures StripArrows(line) == line && StripAlign(line) == line
  {
    NoMatchKeeps(line, TagMatch, "");
    NoMatchKeeps(line, TimestampMatch, "");
    NoMatchKeeps(line, ArrowMatch, "");
    NoMatchKeeps(line, AlignMatch, "");
  }

  lemma HiddenArrowControlRemoved(line: string)
    requires line == "--" + [1 as char] + ">"
    ensures StripControls(line) == "-->"
  {
    ReplaceAllStep(line, ControlMatch, "");
    ReplaceAllStep(line[1..], ControlMatch, "");
    ReplaceAllStep(line[2..], ControlMatch, "");
    ReplaceAllStep(line[3..], ControlMatch, "");
    assert line[3..][1..] == "";
    assert line[2..][1..] == line[3..];
    assert line[1..][1..] == line[2..];
  }

  /** A pattern that matches at no position leaves the string unchanged. */
  lemma {:induction false} NoMatchKeeps(s: string, matchAt: string -> nat, replacement: string)
    requires forall i :: 0 <= i < |s| ==> matchAt(s[i..]) == 0
    ensures ReplaceAll(s, matchAt, replacement) == s
    decreases |s|
  {
    if |s| > 0 {
      assert s[0..] == s;
      ReplaceAllStep(s, matchAt, replacement);
      forall i | 0 <= i < |s| - 1 ensures matchAt(s[1..][i..]) == 0 {
        assert s[1..][i..] == s[i + 1..];
      }
      NoMatchKeeps(s[1..], matchAt, replacement);
    }
  }

  /** The rewrites after the tag removal keep a tag-free string tag-free. */
  lemma LaterRewritesKeepTagFree(s1: string)
    requires TagFree(s1)
    ensures TagFree(CollapseSpaces(StripControls(StripAlign(StripArrows(StripTimestamps(s1))))))
  {
    var s2 := StripTimestamps(s1);
    var s3 := StripArrows(s2);
    var s4 := StripAlign(s3);
    var s5 := StripControls(s4);
    LaterPatternsNeverStartAtGt();
    ReplaceAllKeepsTagFree(s1, TimestampMatch, "");
    ReplaceAllKeepsTagFree(s2, ArrowMatch, "");
    ReplaceAllKeepsTagFree(s3, AlignMatch, "");
    ReplaceAllKeepsTagFree(s4, ControlMatch, "");
    ReplaceAllKeepsTagFree(s5, SpaceRunMatch, " ");
  }

  /** Trimming a tag-free string leaves no position where a tag starts. */
  lemma TrimKeepsTagFree(s: string)
    requires TagFree(s)
    ensures forall i :: 0 <= i < |Trim(s)| ==> TagMatch(Trim(s)[i..]) == 0
  {
    var a, b := TrimIsInfix(s);
    TagFreeInfix(s, a, b);
    TagFreeIff(s[a..b]);
  }

  /** Trimming a collapsed string gives a trimmed string without two whitespace characters side by side. */
  lemma TrimCollapsed(s: string)
    ensures Trimmed(Trim(CollapseSpaces(s)))
    ensures NoDoubleSpace(Trim(CollapseSpaces(s)))
  {
    var c := CollapseSpaces(s);
    CollapseNoDoubleSpace(s);
    var a, b := TrimIsInfix(c);
    NoDoubleSpaceInfix(c, a, b);
  }

  /** Every cleaned line holds no tag. */
  lemma CleanLineTagFree(line: string)
    ensures forall i :: 0 <= i < |CleanLine(line)| ==> TagMatch(CleanLine(line)[i..]) == 0
  {
    StripTagsTagFree(line);
    LaterRewritesKeepTagFree(StripTags(line));
    TrimKeepsTagFree(CollapseSpaces(StripControls(StripAlign(StripArrows(StripTimestamps(StripTags(line)))))));
  }

  /** Every cleaned line is trimmed and holds no two whitespace characters side by side. */
  lemma CleanLineTrimmedSingleSpaced(line: string)
    ensures Trimmed(CleanLine(line))
    ensures NoDoubleSpace(CleanLine(line))
  {
    TrimCollapsed(StripControls(StripAlign(StripArrows(StripTimestamps(StripTags(line))))));
  }

  /** What a cleaned line is: non-empty, trimmed, single-spaced and without tags. */
  predicate IsCleanedLine(s: string) {
    s != ""
    && Trimmed(s)
    && NoDoubleSpace(s)
    && forall i :: 0 <= i < |s| ==> TagMatch(s[i..]) == 0
  }

  /** The images of a concatenation are those of each part, in order. */
  lemma {:induction false} NonEmptyImagesAppend(f: string -> string, a: seq<string>, b: seq<string>)
    ensures NonEmptyImages(f, a + b) == NonEmptyImages(f, a) + NonEmptyImages(f, b)
    decreases |b|
  {
    if |b| == 0 {
      assert a + b == a;
    } else {
      var ab := a + b;
      assert ab[..|ab| - 1] == a + b[..|b| - 1];
      assert ab[|ab| - 1] == b[|b| - 1];
      NonEmptyImagesAppend(f, a, b[..|b| - 1]);
    }
  }

  /** No more images than lines, each non-empty, each the image of a line. */
  lemma {:induction false} NonEmptyImagesBound(f: string -> string, lines: seq<string>, p: string -> bool)
    requires forall x :: f(x) != "" ==> p(f(x))
    ensures |NonEmptyImages(f, lines)| <= |lines|
    ensures forall k :: 0 <= k < |NonEmptyImages(f, lines)| ==> NonEmptyImages(f, lines)[k] != ""
    ensures forall k :: 0 <= k < |NonEmptyImages(f, lines)| ==> p(NonEmptyImages(f, lines)[k])
    decreases |lines|
  {
    if |lines| > 0 {
      NonEmptyImagesBound(f, lines[..|lines| - 1], p);
    }
  }

  /** The cleaned lines of a concatenation are those of each part, in order. */
  lemma CleanAllAppend(a: seq<string>, b: seq<string>)
    ensures CleanAll(a + b) == CleanAll(a) + CleanAll(b)
  {
    NonEmptyImagesAppend(CleanLine, a, b);
  }

  /** A non-empty result of CleanLine is a cleaned line. */
  lemma CleanLineIsCleaned(line: string)
    requires CleanLine(line) != ""
    ensures IsCleanedLine(CleanLine(line))
  {
    CleanLineTagFree(line);
    CleanLineTrimmedSingleSpaced(line);
  }

  /** No more cleaned lines than raw lines, and each one is a cleaned line. */
  lemma CleanAllLines(lines: seq<string>)
    ensures |CleanAll(lines)| <= |lines|
    ensures forall k :: 0 <= k < |CleanAll(lines)| ==> IsCleanedLine(CleanAll(lines)[k])
  {
    forall x | CleanLine(x) != "" ensures IsCleanedLine(CleanLine(x)) {
      CleanLineIsCleaned(x);
    }
    NonEmptyImagesBound(CleanLine, lines, IsCleanedLine);
  }

  /** The header skip fails exactly when the header is there and fewer than four lines survive cleaning. */
  lemma CleanSpecFails(lines: seq<string>)
    ensures CleanSpec(lines).Failure? <==> HasVttHeader(lines) && |CleanAll(lines)| < 4
    ensures CleanSpec(lines).Failure? ==> CleanSpec(lines).error == SubListOutOfRange(3, |CleanAll(lines)| - 1)
  {
  }

  /** Every line cleanSubtitles returns is a cleaned line, and the result keeps the order of the loop. */
  lemma CleanSpecLines(lines: seq<string>)
    requires CleanSpec(lines).Success?
    ensures var out := CleanSpec(lines).value;
      (forall k :: 0 <= k < |out| ==> IsCleanedLine(out[k]))
      && (HasVttHeader(lines) ==> out == CleanAll(lines)[3..|CleanAll(lines)| - 1])
      && (!HasVttHeader(lines) ==> out == CleanAll(lines))
  {
    CleanAllLines(lines);
  }

  /**
   * Plain text: trimmed, single-spaced, and free of '<', '-', ':' and ASCII
   * controls. This excludes more than needed (a lone '-' or ':' starts no
   * match), but it is enough to keep every pattern from matching.
   */
  predicate IsPlainText(s: string) {
    Trimmed(s)
    && NoDoubleSpace(s)
    && forall i :: 0 <= i < |s| ==>
      s[i] == ' ' || (s[i] > ' ' && s[i] != 127 as char && s[i] != '<' && s[i] != '-' && s[i] != ':')
  }

  lemma TrimTrimmed(s: string)
    requires Trimmed(s)
    ensures Trim(s) == s
  {
  }

  /** No pattern of the chain matches anywhere in plain text. */
  lemma PlainTextNoMatch(s: string)
    requires IsPlainText(s)
    ensures forall i :: 0 <= i < |s| ==> TagMatch(s[i..]) == 0 && TimestampMatch(s[i..]) == 0
    ensures forall i :: 0 <= i < |s| ==> ArrowMatch(s[i..]) == 0 && ControlMatch(s[i..]) == 0
    ensures forall i :: 0 <= i < |s| ==> AlignMatch(s[i..]) == 0 && SpaceRunMatch(s[i..]) == 0
  {
    forall i | 0 <= i < |s| ensures AlignMatch(s[i..]) == 0 && TimestampMatch(s[i..]) == 0 {
      PlainTextNoColonAt(s, i);
    }
    forall i | 0 <= i < |s| ensures SpaceRunMatch(s[i..]) == 0 {
      PlainTextNoSpaceRunAt(s, i);
    }
  }

  lemma PlainTextNoColonAt(s: string, i: nat)
    requires IsPlainText(s) && i < |s|
    ensures AlignMatch(s[i..]) == 0 && TimestampMatch(s[i..]) == 0
  {
    if |s[i..]| >= 6 {
      assert s[i..][..6][5] == s[i + 5];
    }
  }

  lemma PlainTextNoSpaceRunAt(s: string, i: nat)
    requires IsPlainText(s) && i < |s|
    ensures SpaceRunMatch(s[i..]) == 0
  {
    if i + 1 < |s| {
      assert s[i..][1] == s[i + 1];
    }
  }

  /** Cleaning keeps plain text as it is. */
  lemma CleanPlainText(s: string)
    requires IsPlainText(s)
    ensures CleanLine(s) == s
  {
    PlainTextNoMatch(s);
    PlainTextUnchanged(s);
    TrimTrimmed(s);
  }

  lemma PlainTextUnchanged(s: string)
    requires forall i :: 0 <= i < |s| ==> TagMatch(s[i..]) == 0 && TimestampMatch(s[i..]) == 0
    requires forall i :: 0 <= i < |s| ==> ArrowMatch(s[i..]) == 0 && ControlMatch(s[i..]) == 0
    requires forall i :: 0 <= i < |s| ==> AlignMatch(s[i..]) == 0 && SpaceRunMatch(s[i..]) == 0
    ensures CollapseSpaces(StripControls(StripAlign(StripArrows(StripTimestamps(StripTags(s)))))) == s
  {
    NoMatchKeeps(s, TagMatch, "");
    NoMatchKeeps(s, TimestampMatch, "");
    NoMatchKeeps(s, ArrowMatch, "");
    NoMatchKeeps(s, AlignMatch, "");
    NoMatchKeeps(s, ControlMatch, "");
    NoMatchKeeps(s, SpaceRunMatch, " ");
  }

  /** Repeated lines are not merged: a plain-text line given twice in a row is kept twice. */
  lemma RepeatedLineKept(a: seq<string>, s: string, b: seq<string>)
    requires IsPlainText(s) && s != ""
    ensures CleanAll(a + [s, s] + b) == CleanAll(a) + [s, s] + CleanAll(b)
  {
    CleanPlainText(s);
    RepeatedFixedImage(CleanLine, a, s, b);
  }

  lemma RepeatedFixedImage(f: string -> string, a: seq<string>, s: string, b: seq<string>)
    requires f(s) == s && s != ""
    ensures NonEmptyImages(f, a + [s, s] + b) == NonEmptyImages(f, a) + [s, s] + NonEmptyImages(f, b)
  {
    var pair := [s, s];
    NonEmptyImagesStep(f, pair, 0);
    NonEmptyImagesStep(f, pair, 1);
    assert pair[..2] == pair;
    assert pair[..0] == [];
    NonEmptyImagesAppend(f, a, pair);
    NonEmptyImagesAppend(f, a + pair, b);
  }

  /**
   * A blank second line defeats the header test whatever else the file holds,
   * so nothing is cut: the result is every non-empty cleaned line, the
   * literal WEBVTT line included.
   */
  lemma BlankSecondLineKeepsAll(lines: seq<string>)
    requires |lines| >= 2 && lines[1] == ""
    ensures !HasVttHeader(lines)
    ensures CleanSpec(lines) == Success(CleanAll(lines))
  {
  }

  /** The unit-test fixture "WEBVTT", "", a timing line, one text line: the WEBVTT line stays. */
  lemma BlankSecondLineKeepsWebVtt(lines: seq<string>)
    requires lines == ["WEBVTT", "", "00:00:01.000 --> 00:00:03.000", "Hello world"]
    ensures CleanSpec(lines) == Success(["WEBVTT", "Hello world"])
  {
    PlainLineKept(lines[0]);
    PlainLineKept(lines[1]);
    FixtureTimingLine(lines[2]);
    PlainLineKept(lines[3]);
    FourImages(CleanLine, lines[0], lines[1], lines[2], lines[3]);
    assert lines == [lines[0], lines[1], lines[2], lines[3]];
    BlankSecondLineKeepsAll(lines);
  }

  lemma FixtureTimingLine(line: string)
    requires line == "00:00:01.000 --> 00:00:03.000"
    ensures CleanLine(line) == ""
  {
    var t1, t2 := "00:00:01.000", "00:00:03.000";
    assert IsCueTimestamp(t1) && IsCueTimestamp(t2);
    assert line == t1 + " --> " + t2;
    TimingLineCleansAway(t1, t2);
  }

  lemma PlainLineKept(s: string)
    requires s == "WEBVTT" || s == "" || s == "Hello world"
    ensures CleanLine(s) == s
  {
    CleanPlainText(s);
  }

  /**
   * A cue timing line "t1 --> t2" cleans to nothing: both timestamps are
   * removed, then the arrow with the space after it, and trim takes the
   * space that is left.
   */
  lemma TimingLineCleansAway(t1: string, t2: string)
    requires IsCueTimestamp(t1) && IsCueTimestamp(t2)
    ensures CleanLine(t1 + " --> " + t2) == ""
  {
    TimingLineTagFree(t1, t2);
    TimingTimestampsRemoved(t1, t2);
    TimingArrowRemoved();
    SingleSpaceKept();
    assert Trim(" ") == "";
  }

  lemma TimingLineTagFree(t1: string, t2: string)
    requires IsCueTimestamp(t1) && IsCueTimestamp(t2)
    ensures StripTags(t1 + " --> " + t2) == t1 + " --> " + t2
  {
    var line := t1 + " --> " + t2;
    assert '<' !in line;
    forall i | 0 <= i < |line| ensures TagMatch(line[i..]) == 0 {
      assert line[i..][0] == line[i];
    }
    NoMatchKeeps(line, TagMatch, "");
  }

  lemma SingleSpaceKept()
    ensures CollapseSpaces(StripControls(StripAlign(" "))) == " "
  {
    NoMatchKeeps(" ", AlignMatch, "");
    NoMatchKeeps(" ", ControlMatch, "");
    NoMatchKeeps(" ", SpaceRunMatch, " ");
  }

  lemma TimingTimestampsRemoved(t1: string, t2: string)
    requires IsCueTimestamp(t1) && IsCueTimestamp(t2)
    ensures StripTimestamps(t1 + " --> " + t2) == " --> "
  {
    var arrow := " --> ";
    assert t1 + arrow + t2 == t1 + (arrow + t2);
    TimestampRemoved(t1, arrow + t2);
    assert forall i :: 0 <= i < |arrow| ==> !IsDigit(arrow[i]);
    NonDigitsKept(arrow, t2);
    TimestampRemoved(t2, "");
    assert t2 + "" == t2;
    assert arrow + "" == arrow;
  }

  /** A leading cue timestamp is removed and the scan goes on after it. */
  lemma TimestampRemoved(t: string, rest: string)
    requires IsCueTimestamp(t)
    ensures StripTimestamps(t + rest) == StripTimestamps(rest)
  {
    var s := t + rest;
    assert s[..12] == t && s[12..] == rest;
    ReplaceAllStep(s, TimestampMatch, "");
  }

  /** Characters that are not digits cannot start a timestamp and are kept. */
  lemma {:induction false} NonDigitsKept(p: string, rest: string)
    requires forall i :: 0 <= i < |p| ==> !IsDigit(p[i])
    ensures StripTimestamps(p + rest) == p + StripTimestamps(rest)
    decreases |p|
  {
    if |p| > 0 {
      var s := p + rest;
      assert s[0] == p[0];
      assert TimestampMatch(s) == 0;
      ReplaceAllStep(s, TimestampMatch, "");
      assert StripTimestamps(s) == [p[0]] + StripTimestamps(s[1..]);
      assert s[1..] == p[1..] + rest;
      NonDigitsKept(p[1..], rest);
      assert p == [p[0]] + p[1..];
      assert [p[0]] + (p[1..] + StripTimestamps(rest)) == p + StripTimestamps(rest);
    } else {
      assert p + rest == rest;
    }
  }

  lemma TimingArrowRemoved()
    ensures StripArrows(" --> ") == " "
  {
    var s := " --> ";
    ReplaceAllStep(s, ArrowMatch, "");
    assert s[1..] == "--> ";
    assert ArrowMatch(s[1..]) == 4 by {
      assert s[1..][3..] == " ";
    }
    ReplaceAllStep(s[1..], ArrowMatch, "");
    assert s[1..][4..] == "";
  }

  lemma FourImages(f: string -> string, a: string, b: string, c: string, d: string)
    requires f(a) == a && f(b) == b && f(c) == "" && f(d) == d && a != "" && b == "" && d != ""
    ensures NonEmptyImages(f, [a, b, c, d]) == [a, d]
  {
    var lines := [a, b, c, d];
    NonEmptyImagesStep(f, lines, 0);
    NonEmptyImagesStep(f, lines, 1);
    NonEmptyImagesStep(f, lines, 2);
    NonEmptyImagesStep(f, lines, 3);
    assert lines[..4] == lines;
    assert lines[..0] == [];
  }
}
