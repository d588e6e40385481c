/**
 * The java.lang.String operations the core relies on, restricted to the
 * ASCII behaviour that the core's inputs exercise: trim, toLowerCase,
 * startsWith/endsWith/contains, indexOf, split (with its removal of trailing
 * empty strings), split with a limit of 2, and String.join; and the ASCII
 * character classes `\d` and `\w` of java.util.regex.
 */
module JavaStrings {

  /** String.trim removes every leading and trailing character <= U+0020. */
  predicate IsTrimmable(c: char) {
    c <= ' '
  }

  predicate Trimmed(s: string) {
    |s| == 0 || (!IsTrimmable(s[0]) && !IsTrimmable(s[|s| - 1]))
  }

  function TrimStart(s: string): (r: string)
    ensures |r| <= |s| && r == s[|s| - |r|..]
    ensures |r| == 0 || !IsTrimmable(r[0])
    ensures forall i :: 0 <= i < |s| - |r| ==> IsTrimmable(s[i])
  {
    if |s| > 0 && IsTrimmable(s[0]) then TrimStart(s[1..]) else s
  }

  function TrimEnd(s: string): (r: string)
    ensures |r| <= |s| && r == s[..|r|]
    ensures |r| == 0 || !IsTrimmable(r[|r| - 1])
    ensures forall i :: |r| <= i < |s| ==> IsTrimmable(s[i])
  {
    if |s| > 0 && IsTrimmable(s[|s| - 1]) then TrimEnd(s[..|s| - 1]) else s
  }

  /** String.trim: the result is an infix of s whose ends are not trimmable. */
  function Trim(s: string): (r: string)
    ensures Trimmed(r)
    ensures |r| <= |s|
  {
    TrimEnd(TrimStart(s))
  }

  /** The result of trim is an infix of s. */
  lemma TrimIsInfix(s: string) returns (a: nat, b: nat)
    ensures a <= b <= |s|
    ensures Trim(s) == s[a..b]
  {
    var t := TrimStart(s);
    var r := TrimEnd(t);
    a := |s| - |t|;
    b := a + |r|;
    assert t == s[a..];
    assert r == t[..|r|];
    assert s[a..][..|r|] == s[a..b];
  }

  /** `\d` */
  predicate IsDigit(c: char) {
    '0' <= c <= '9'
  }

  /** `\w`: ASCII letters, digits and the underscore. */
  predicate IsWordChar(c: char) {
    'a' <= c <= 'z' || 'A' <= c <= 'Z' || IsDigit(c) || c == '_'
  }

  /** Character.toLowerCase on the ASCII range; other characters are kept. */
  function LowerChar(c: char): char {
    if 'A' <= c <= 'Z' then (c as int + 32) as char else c
  }

  /** String.toLowerCase, ASCII only. */
  function ToLower(s: string): (r: string)
    ensures |r| == |s|
    ensures forall i :: 0 <= i < |s| ==> r[i] == LowerChar(s[i])
  {
    seq(|s|, i requires 0 <= i < |s| => LowerChar(s[i]))
  }

  predicate StartsWith(s: string, prefix: string) {
    |prefix| <= |s| && s[..|prefix|] == prefix
  }

  predicate EndsWith(s: string, suffix: string) {
    |suffix| <= |s| && s[|s| - |suffix|..] == suffix
  }

  /** String.contains: some suffix of s starts with sub. */
  predicate Contains(s: string, sub: string)
    decreases |s|
  {
    StartsWith(s, sub) || (|s| > 0 && Contains(s[1..], sub))
  }

  /** String.indexOf(char): the first index of c, or -1 when c does not occur. */
  function IndexOf(s: string, c: char): (r: int)
    ensures r == -1 <==> c !in s
    ensures r != -1 ==> 0 <= r < |s| && s[r] == c && c !in s[..r]
  {
    if |s| == 0 then -1
    else if s[0] == c then 0
    else
      var k := IndexOf(s[1..], c);
      assert s[1..][..if k == -1 then 0 else k] == s[1..1 + if k == -1 then 0 else k];
      if k == -1 then -1 else k + 1
  }

  /** Looking for a character past a prefix that lacks it. */
  lemma IndexOfAppend(a: string, b: string, c: char)
    requires c !in a
    ensures c in a + b <==> c in b
    ensures c in b ==> IndexOf(a + b, c) == |a| + IndexOf(b, c)
  {
    var ab := a + b;
    assert forall i :: 0 <= i < |a| ==> ab[i] == a[i];
    assert forall i :: 0 <= i < |b| ==> ab[|a| + i] == b[i];
    if c in b {
      var k := |a| + IndexOf(b, c);
      assert ab[..k] == a + b[..IndexOf(b, c)];
    }
  }

  /**
   * Every piece between occurrences of the separator, first to last: what
   * String.split computes before it drops trailing empty strings.
   */
  function SplitAll(s: string, sep: char): (r: seq<string>)
    ensures |r| >= 1
  {
    SplitFrom(s, sep, "")
  }

  /** The pieces of s, where `piece` is the part of the current piece already read. */
  function SplitFrom(s: string, sep: char, piece: string): (r: seq<string>)
    ensures |r| >= 1
    decreases |s|
  {
    if |s| == 0 then [piece]
    else if s[0] == sep then [piece] + SplitFrom(s[1..], sep, "")
    else SplitFrom(s[1..], sep, piece + [s[0]])
  }

  function DropTrailingEmpty(ps: seq<string>): (r: seq<string>)
    ensures |r| <= |ps| && r == ps[..|r|]
    ensures |r| == 0 || r[|r| - 1] != ""
    ensures forall k :: |r| <= k < |ps| ==> ps[k] == ""
  {
    if |ps| > 0 && ps[|ps| - 1] == "" then DropTrailingEmpty(ps[..|ps| - 1]) else ps
  }

  /**
   * String.split with a one-character, non-meta separator and no limit: when the
   * separator does not occur the result is the string itself, otherwise the
   * pieces with trailing empty strings removed.
   */
  function Split(s: string, sep: char): seq<string> {
    if sep !in s then [s] else DropTrailingEmpty(SplitAll(s, sep))
  }

  /** String.split(sep, 2): at most two pieces, cut at the first separator. */
  function SplitLimit2(s: string, sep: char): (r: seq<string>)
    ensures 1 <= |r| <= 2
    ensures |r| == 2 <==> sep in s
    ensures |r| == 1 ==> r[0] == s
    ensures |r| == 2 ==> r[0] + [sep] + r[1] == s && sep !in r[0]
  {
    if sep !in s then [s]
    else
      var i := IndexOf(s, sep);
      assert s == s[..i] + [sep] + s[i + 1..];
      [s[..i], s[i + 1..]]
  }

  /** String.join(sep, parts). */
  function Join(parts: seq<string>, sep: string): string {
    if |parts| == 0 then ""
    else if |parts| == 1 then parts[0]
    else parts[0] + sep + Join(parts[1..], sep)
  }

  /** Joining the pieces of SplitAll with the separator gives back the string. */
  lemma SplitAllJoin(s: string, sep: char)
    ensures Join(SplitAll(s, sep), [sep]) == s
  {
    SplitFromJoin(s, sep, "");
  }

  lemma {:induction false} SplitFromJoin(s: string, sep: char, piece: string)
    ensures Join(SplitFrom(s, sep, piece), [sep]) == piece + s
    decreases |s|
  {
    if |s| > 0 {
      if s[0] == sep {
        SplitFromJoin(s[1..], sep, "");
        var rest := SplitFrom(s[1..], sep, "");
        assert ([piece] + rest)[1..] == rest;
      } else {
        SplitFromJoin(s[1..], sep, piece + [s[0]]);
      }
      assert s == [s[0]] + s[1..];
    }
  }

  /** No piece of SplitAll contains the separator. */
  lemma SplitAllPieces(s: string, sep: char)
    ensures forall k :: 0 <= k < |SplitAll(s, sep)| ==> sep !in SplitAll(s, sep)[k]
  {
    SplitFromPieces(s, sep, "");
  }

  lemma {:induction false} SplitFromPieces(s: string, sep: char, piece: string)
    requires sep !in piece
    ensures forall k :: 0 <= k < |SplitFrom(s, sep, piece)| ==> sep !in SplitFrom(s, sep, piece)[k]
    decreases |s|
  {
    if |s| > 0 {
      if s[0] == sep {
        SplitFromPieces(s[1..], sep, "");
      } else {
        SplitFromPieces(s[1..], sep, piece + [s[0]]);
      }
    }
  }

  /** A string without the separator is one piece. */
  lemma SplitAllNoSep(s: string, sep: char)
    requires sep !in s
    ensures SplitAll(s, sep) == [s]
  {
    SplitFromNoSep(s, sep, "");
    assert "" + s == s;
  }

  lemma {:induction false} SplitFromNoSep(s: string, sep: char, piece: string)
    requires sep !in s
    ensures SplitFrom(s, sep, piece) == [piece + s]
    decreases |s|
  {
    if |s| > 0 {
      assert s == [s[0]] + s[1..];
      SplitFromNoSep(s[1..], sep, piece + [s[0]]);
      assert piece + [s[0]] + s[1..] == piece + s;
    } else {
      assert piece + s == piece;
    }
  }

  /** Splitting around one separator occurrence splits each side separately. */
  lemma SplitAllAppend(a: string, b: string, sep: char)
    ensures SplitAll(a + [sep] + b, sep) == SplitAll(a, sep) + SplitAll(b, sep)
  {
    SplitFromAppend(a, b, sep, "");
  }

  lemma {:induction false} SplitFromAppend(a: string, b: string, sep: char, piece: string)
    ensures SplitFrom(a + [sep] + b, sep, piece) == SplitFrom(a, sep, piece) + SplitFrom(b, sep, "")
    decreases |a|
  {
    var s := a + [sep] + b;
    if |a| == 0 {
      assert s[1..] == b;
    } else {
      assert s[0] == a[0];
      assert s[1..] == a[1..] + [sep] + b;
      if a[0] == sep {
        SplitFromAppend(a[1..], b, sep, "");
        var ra := SplitFrom(a[1..], sep, "");
        var rb := SplitFrom(b, sep, "");
        assert [piece] + (ra + rb) == ([piece] + ra) + rb;
      } else {
        SplitFromAppend(a[1..], b, sep, piece + [a[0]]);
      }
    }
  }

  /** Contains means some position holds the substring. */
  lemma {:induction false} ContainsAt(s: string, sub: string)
    ensures Contains(s, sub) <==> exists i :: 0 <= i <= |s| - |sub| && StartsWith(s[i..], sub)
    decreases |s|
  {
    if |s| == 0 && |sub| == 0 {
      assert StartsWith(s[0..], sub);
    }
    if StartsWith(s, sub) {
      assert s[0..] == s;
    }
    if |s| > 0 {
      ContainsAt(s[1..], sub);
      if Contains(s[1..], sub) {
        var i :| 0 <= i <= |s| - 1 - |sub| && StartsWith(s[1..][i..], sub);
        assert s[1..][i..] == s[i + 1..];
      }
      if exists i :: 0 <= i <= |s| - |sub| && StartsWith(s[i..], sub) {
        var i :| 0 <= i <= |s| - |sub| && StartsWith(s[i..], sub);
        if i > 0 {
          assert s[1..][i - 1..] == s[i..];
        } else {
          assert s[0..] == s;
        }
      }
    }
  }

  /** toLowerCase works character by character, so it distributes over concatenation. */
  lemma ToLowerAppend(a: string, b: string)
    ensures ToLower(a + b) == ToLower(a) + ToLower(b)
  {
  }

  /** A string contains every one of its infixes. */
  lemma ContainsInfix(pre: string, sub: string, post: string)
    ensures Contains(pre + sub + post, sub)
  {
    var s := pre + sub + post;
    ContainsAt(s, sub);
    assert s[|pre|..][..|sub|] == sub;
  }

  /** A leading space cannot start an occurrence of a string that does not start with a space. */
  lemma ContainsAfterSpace(x: string, sub: string)
    requires |sub| > 0 && sub[0] != ' '
    ensures Contains(" " + x, sub) <==> Contains(x, sub)
  {
    assert (" " + x)[1..] == x;
  }

  /**
   * Trailing trimmable characters cannot hold the end of an occurrence of a
   * string whose last character is not trimmable.
   */
  lemma ContainsTrailing(a: string, b: string, sub: string)
    requires |sub| > 0 && !IsTrimmable(sub[|sub| - 1])
    requires forall i :: 0 <= i < |b| ==> IsTrimmable(b[i])
    ensures Contains(a + b, sub) <==> Contains(a, sub)
  {
    ContainsAt(a + b, sub);
    ContainsAt(a, sub);
    if Contains(a + b, sub) {
      var i :| 0 <= i <= |a + b| - |sub| && StartsWith((a + b)[i..], sub);
      OccurrenceInPrefix(a, b, sub, i);
    }
    if Contains(a, sub) {
      var i :| 0 <= i <= |a| - |sub| && StartsWith(a[i..], sub);
      assert (a + b)[i..][..|sub|] == a[i..][..|sub|];
    }
  }

  /** An occurrence that ends on a non-trimmable character lies inside the prefix before a trimmable tail. */
  lemma OccurrenceInPrefix(a: string, b: string, sub: string, i: nat)
    requires |sub| > 0 && !IsTrimmable(sub[|sub| - 1])
    requires forall k :: 0 <= k < |b| ==> IsTrimmable(b[k])
    requires i <= |a + b| - |sub| && StartsWith((a + b)[i..], sub)
    ensures i + |sub| <= |a| && StartsWith(a[i..], sub)
  {
    var ab := a + b;
    var j := i + |sub| - 1;
    assert ab[j] == ab[i..][..|sub|][|sub| - 1];
    assert a[i..][..|sub|] == ab[i..][..|sub|];
  }
}
