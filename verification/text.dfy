/** The handful of Python `str` operations the backend relies on, over
    ASCII: `isspace`, `strip`, `lower`, `upper`, `capitalize`, `split()`,
    `join`, `find`/`rfind`, and `os.path.splitext` for POSIX paths.
    Characters outside ASCII are left unchanged by the case mappings and
    never count as whitespace. */
module Text {

  // ---------------------------------------------------------------------------
  // Characters
  // ---------------------------------------------------------------------------

  /** Python's `str.isspace()` on ASCII: tab, line feed, vertical tab, form
      feed, carriage return, the four information separators 0x1C..0x1F, and
      the space. */
  predicate IsSpace(c: char) {
    c == ' ' || ('\t' <= c <= '\r') || ('\U{1C}' <= c <= '\U{1F}')
  }

  function LowerChar(c: char): char {
    if 'A' <= c <= 'Z' then (c as int + 32) as char else c
  }

  function UpperChar(c: char): char {
    if 'a' <= c <= 'z' then (c as int - 32) as char else c
  }

  /** True when every character is whitespace (vacuously for ""). */
  predicate IsBlank(s: string) {
    forall i :: 0 <= i < |s| ==> IsSpace(s[i])
  }

  /** A token produced by `str.split()`: non-empty, no whitespace. */
  predicate IsWord(w: string) {
    |w| > 0 && forall i :: 0 <= i < |w| ==> !IsSpace(w[i])
  }

  // ---------------------------------------------------------------------------
  // Case mapping
  // ---------------------------------------------------------------------------

  function Lower(s: string): (r: string)
    ensures |r| == |s|
    ensures forall i :: 0 <= i < |s| ==> r[i] == LowerChar(s[i])
  {
    seq(|s|, i requires 0 <= i < |s| => LowerChar(s[i]))
  }

  /** Python's `str.capitalize()`: first character upper-cased, the rest
      lower-cased. */
  function Capitalize(s: string): (r: string)
    ensures |r| == |s|
    ensures |s| > 0 ==> r[0] == UpperChar(s[0])
    ensures forall i :: 1 <= i < |s| ==> r[i] == LowerChar(s[i])
  {
    if |s| == 0 then "" else [UpperChar(s[0])] + Lower(s[1..])
  }

  // ---------------------------------------------------------------------------
  // Stripping
  // ---------------------------------------------------------------------------

  function StripLeft(s: string): (r: string)
    ensures |r| <= |s| && r == s[|s| - |r|..]
    ensures |r| > 0 ==> !IsSpace(r[0])
    ensures forall i :: 0 <= i < |s| - |r| ==> IsSpace(s[i])
  {
    if |s| > 0 && IsSpace(s[0]) then StripLeft(s[1..]) else s
  }

  function StripRight(s: string): (r: string)
    ensures |r| <= |s| && r == s[..|r|]
    ensures |r| > 0 ==> !IsSpace(r[|r| - 1])
    ensures forall i :: |r| <= i < |s| ==> IsSpace(s[i])
  {
    if |s| > 0 && IsSpace(s[|s| - 1]) then StripRight(s[..|s| - 1]) else s
  }

  /** Python's `str.strip()` with no argument. */
  function Strip(s: string): (r: string)
    ensures |r| <= |s|
    ensures |r| > 0 ==> !IsSpace(r[0]) && !IsSpace(r[|r| - 1])
  {
    StripRight(StripLeft(s))
  }

  /** `s.strip()` is falsy exactly when `s` is all whitespace. */
  lemma {:induction false} StripEmptyIffBlank(s: string)
    ensures Strip(s) == "" <==> IsBlank(s)
  {
    var l := StripLeft(s);
    if Strip(s) == "" {
      assert |l| == 0;
    } else {
      var r := Strip(s);
      assert l[0] == r[0];
      assert s[|s| - |l|] == l[0];
    }
  }

  // ---------------------------------------------------------------------------
  // Splitting on whitespace and joining
  // ---------------------------------------------------------------------------

  /** Length of the leading run of non-whitespace characters. */
  function WordEnd(t: string): (n: nat)
    ensures n <= |t|
    ensures forall i :: 0 <= i < n ==> !IsSpace(t[i])
    ensures n < |t| ==> IsSpace(t[n])
  {
    if |t| == 0 || IsSpace(t[0]) then 0 else 1 + WordEnd(t[1..])
  }

  /** Python's `str.split()` with no argument: the maximal runs of
      non-whitespace characters, in order. */
  function Split(s: string): seq<string>
    decreases |s|
  {
    var t := StripLeft(s);
    if |t| == 0 then []
    else
      var n := WordEnd(t);
      [t[..n]] + Split(t[n..])
  }

  /** Every token `split()` yields is a non-empty run without whitespace. */
  lemma {:induction false} SplitYieldsWords(s: string)
    ensures forall i :: 0 <= i < |Split(s)| ==> IsWord(Split(s)[i])
    decreases |s|
  {
    var t := StripLeft(s);
    if |t| > 0 {
      var n := WordEnd(t);
      SplitYieldsWords(t[n..]);
      FirstTokenIsWord(t);
      AllWordsCons(t[..n], Split(t[n..]));
    }
  }

  lemma {:induction false} FirstTokenIsWord(t: string)
    requires |t| > 0 && !IsSpace(t[0])
    ensures IsWord(t[..WordEnd(t)])
  {
  }

  lemma {:induction false} AllWordsCons(w: string, rest: seq<string>)
    requires IsWord(w)
    requires forall i :: 0 <= i < |rest| ==> IsWord(rest[i])
    ensures forall i :: 0 <= i < |[w] + rest| ==> IsWord(([w] + rest)[i])
  {
  }

  /** `sep.join(ws)`. */
  function Join(ws: seq<string>, sep: string): (r: string)
    ensures |ws| == 1 ==> r == ws[0]
  {
    if |ws| == 0 then ""
    else if |ws| == 1 then ws[0]
    else ws[0] + sep + Join(ws[1..], sep)
  }

  /** Where the `k`-th piece of `Join(ws, sep)` starts: every earlier piece
      followed by one separator. */
  function JoinOffset(ws: seq<string>, sepLen: nat, k: nat): (r: nat)
    requires k <= |ws|
    ensures k > 0 ==> r >= |ws[0]| + sepLen
  {
    if k == 0 then 0 else |ws[0]| + sepLen + JoinOffset(ws[1..], sepLen, k - 1)
  }

  /** An occurrence inside `whole` is an occurrence, shifted, inside
      `prefix + whole`. */
  lemma {:induction false} OccursAtShift(part: string, prefix: string, whole: string, k: nat)
    requires OccursAt(part, whole, k)
    ensures OccursAt(part, prefix + whole, |prefix| + k)
  {
    assert (prefix + whole)[|prefix| + k..|prefix| + k + |part|] == whole[k..k + |part|];
  }

  lemma {:induction false} JoinHeadLayout(w: string, sep: string, rest: string)
    ensures OccursAt(w, w + sep + rest, 0)
    ensures OccursAt(sep, w + sep + rest, |w|)
  {
    assert (w + sep + rest)[0..|w|] == w;
    assert (w + sep + rest)[|w|..|w| + |sep|] == sep;
  }

  /** Layout of `Join(ws, sep)`: piece `k` sits at `JoinOffset(ws, |sep|, k)`
      and, unless it is the last, is followed directly by `sep`. */
  lemma {:induction false} JoinLayout(ws: seq<string>, sep: string, k: nat)
    requires k < |ws|
    ensures OccursAt(ws[k], Join(ws, sep), JoinOffset(ws, |sep|, k))
    ensures k + 1 < |ws| ==> OccursAt(sep, Join(ws, sep), JoinOffset(ws, |sep|, k) + |ws[k]|)
    decreases |ws|
  {
    if |ws| == 1 {
      assert ws[0][0..|ws[0]|] == ws[0];
    } else {
      var rest := Join(ws[1..], sep);
      assert Join(ws, sep) == ws[0] + sep + rest;
      if k == 0 {
        JoinHeadLayout(ws[0], sep, rest);
      } else {
        JoinLayout(ws[1..], sep, k - 1);
        assert ws[1..][k - 1] == ws[k];
        OccursAtShift(ws[k], ws[0] + sep, rest, JoinOffset(ws[1..], |sep|, k - 1));
        if k + 1 < |ws| {
          OccursAtShift(sep, ws[0] + sep, rest, JoinOffset(ws[1..], |sep|, k - 1) + |ws[k]|);
        }
      }
    }
  }

  lemma {:induction false} JoinSeparatorAt(ws: seq<string>, sep: string, k: nat)
    requires k + 1 < |ws|
    ensures OccursAt(sep, Join(ws, sep), JoinOffset(ws, |sep|, k) + |ws[k]|)
  {
    JoinLayout(ws, sep, k);
  }

  lemma {:induction false} JoinPieceAt(ws: seq<string>, sep: string, k: nat)
    requires k < |ws|
    ensures OccursAt(ws[k], Join(ws, sep), JoinOffset(ws, |sep|, k))
  {
    JoinLayout(ws, sep, k);
  }

  /** Piece `k` of a join placed between a fixed head and tail. */
  lemma {:induction false} WrappedJoinPieceAt(head: string, ws: seq<string>, sep: string, tail: string, k: nat)
    requires k < |ws|
    ensures OccursAt(ws[k], head + Join(ws, sep) + tail, |head| + JoinOffset(ws, |sep|, k))
  {
    JoinPieceAt(ws, sep, k);
    OccursAtWrapped(ws[k], head, Join(ws, sep), tail, JoinOffset(ws, |sep|, k));
  }

  /** The separator after piece `k` of a join placed between a fixed head
      and tail. */
  lemma {:induction false} WrappedJoinSeparatorAt(head: string, ws: seq<string>, sep: string, tail: string, k: nat)
    requires k + 1 < |ws|
    ensures OccursAt(sep, head + Join(ws, sep) + tail, |head| + JoinOffset(ws, |sep|, k) + |ws[k]|)
  {
    JoinSeparatorAt(ws, sep, k);
    OccursAtWrapped(sep, head, Join(ws, sep), tail, JoinOffset(ws, |sep|, k) + |ws[k]|);
  }

  /** An occurrence in the middle part of `head + whole + tail`. */
  lemma {:induction false} OccursAtWrapped(part: string, head: string, whole: string, tail: string, k: nat)
    requires OccursAt(part, whole, k)
    ensures OccursAt(part, head + whole + tail, |head| + k)
  {
    assert (head + whole + tail)[|head| + k..|head| + k + |part|] == whole[k..k + |part|];
  }

  /** A non-empty join is exactly as long as its pieces plus one separator
      between each neighbouring pair, so the layout leaves no gap. */
  lemma {:induction false} JoinLength(ws: seq<string>, sep: string)
    requires |ws| > 0
    ensures |Join(ws, sep)| + |sep| == JoinOffset(ws, |sep|, |ws|)
    decreases |ws|
  {
    if |ws| > 1 {
      JoinLength(ws[1..], sep);
    }
  }

  lemma {:induction false} SplitSkipsLeadingSpace(c: char, s: string)
    requires IsSpace(c)
    ensures Split([c] + s) == Split(s)
  {
    assert ([c] + s)[1..] == s;
    assert StripLeft([c] + s) == StripLeft(s);
  }

  /** Splitting the space-joined words gives back the same words: `split()`
      and `" ".join` are inverse on word lists. */
  lemma {:induction false} SplitJoinRoundTrip(ws: seq<string>)
    requires forall i :: 0 <= i < |ws| ==> IsWord(ws[i])
    ensures Split(Join(ws, " ")) == ws
  {
    if |ws| == 0 {
      SplitEmpty();
    } else if |ws| == 1 {
      SplitSingleWord(ws[0]);
    } else {
      TailWords(ws);
      SplitJoinRoundTrip(ws[1..]);
      SplitJoinStep(ws);
    }
  }

  lemma {:induction false} SplitEmpty()
    ensures Split("") == []
  {
    assert StripLeft("") == "";
  }

  lemma {:induction false} SplitSingleWord(w: string)
    requires IsWord(w)
    ensures Split(w) == [w]
  {
    SplitWordThen(w, "");
    assert w + "" == w;
    SplitEmpty();
  }

  lemma {:induction false} TailWords(ws: seq<string>)
    requires |ws| > 0
    requires forall i :: 0 <= i < |ws| ==> IsWord(ws[i])
    ensures forall i :: 0 <= i < |ws[1..]| ==> IsWord(ws[1..][i])
  {
    assert forall i :: 0 <= i < |ws[1..]| ==> ws[1..][i] == ws[i + 1];
  }

  /** The inductive step: the first word comes off the joined text. */
  lemma {:induction false} SplitJoinStep(ws: seq<string>)
    requires |ws| > 1 && IsWord(ws[0])
    requires Split(Join(ws[1..], " ")) == ws[1..]
    ensures Split(Join(ws, " ")) == ws
  {
    JoinCons(ws);
    SplitWordSpaceThen(ws[0], Join(ws[1..], " "));
    HeadTail(ws);
  }

  lemma {:induction false} JoinCons(ws: seq<string>)
    requires |ws| > 1
    ensures Join(ws, " ") == ws[0] + ([' '] + Join(ws[1..], " "))
  {
    var j := Join(ws[1..], " ");
    assert Join(ws, " ") == ws[0] + " " + j;
    assert ws[0] + " " + j == ws[0] + ([' '] + j);
  }

  /** A word, a space and more text split into the word and the split of
      the rest. */
  lemma {:induction false} SplitWordSpaceThen(w: string, j: string)
    requires IsWord(w)
    ensures Split(w + ([' '] + j)) == [w] + Split(j)
  {
    SplitWordThen(w, [' '] + j);
    SplitSkipsLeadingSpace(' ', j);
  }

  lemma {:induction false} HeadTail<T>(xs: seq<T>)
    requires |xs| > 0
    ensures xs == [xs[0]] + xs[1..]
  {
  }

  /** A word followed by nothing or by whitespace is split off first. */
  lemma {:induction false} SplitWordThen(w: string, rest: string)
    requires IsWord(w)
    requires |rest| == 0 || IsSpace(rest[0])
    ensures Split(w + rest) == [w] + Split(rest)
  {
    var s := w + rest;
    assert StripLeft(s) == s;
    WordEndOfWord(w, rest);
    assert s[..|w|] == w;
    assert s[|w|..] == rest;
  }

  lemma {:induction false} WordEndOfWord(w: string, rest: string)
    requires IsWord(w)
    requires |rest| == 0 || IsSpace(rest[0])
    ensures WordEnd(w + rest) == |w|
  {
    if |w| == 1 {
      assert (w + rest)[1..] == rest;
    } else {
      assert (w + rest)[1..] == w[1..] + rest;
      WordEndOfWord(w[1..], rest);
    }
  }

  /** Two texts of equal length with whitespace at the same positions. */
  predicate SamePattern(s: string, t: string) {
    |s| == |t| && forall i :: 0 <= i < |s| ==> (IsSpace(s[i]) <==> IsSpace(t[i]))
  }

  /** Lower-casing keeps every character on its side of the whitespace
      line. */
  lemma {:induction false} LowerKeepsPattern(s: string)
    ensures SamePattern(s, Lower(s))
  {
  }

  lemma {:induction false} SuffixPattern(s: string, t: string, a: nat)
    requires SamePattern(s, t) && a <= |s|
    ensures SamePattern(s[a..], t[a..])
  {
    forall i | 0 <= i < |s| - a
      ensures IsSpace(s[a..][i]) <==> IsSpace(t[a..][i])
    {
      assert s[a..][i] == s[a + i] && t[a..][i] == t[a + i];
    }
  }

  lemma {:induction false} StripLeftPattern(s: string, t: string)
    requires SamePattern(s, t)
    ensures |StripLeft(s)| == |StripLeft(t)|
    decreases |s|
  {
    if |s| > 0 && IsSpace(s[0]) {
      SuffixPattern(s, t, 1);
      StripLeftPattern(s[1..], t[1..]);
    }
  }

  lemma {:induction false} WordEndPattern(s: string, t: string)
    requires SamePattern(s, t)
    ensures WordEnd(s) == WordEnd(t)
    decreases |s|
  {
    if |s| > 0 && !IsSpace(s[0]) {
      SuffixPattern(s, t, 1);
      WordEndPattern(s[1..], t[1..]);
    }
  }

  /** `split()` counts the same number of words in two texts whose
      whitespace sits at the same places. */
  lemma {:induction false} SplitCountPattern(s: string, t: string)
    requires SamePattern(s, t)
    ensures |Split(s)| == |Split(t)|
    decreases |s|
  {
    StripLeftPattern(s, t);
    var ls := StripLeft(s);
    var lt := StripLeft(t);
    SplitCount(s);
    SplitCount(t);
    if |ls| > 0 {
      var n := PatternWordEnd(s, t);
      SplitCountPattern(ls[n..], lt[n..]);
    }
  }

  /** The recurrence `split()` follows, counted: one word per leading run. */
  lemma {:induction false} SplitCount(s: string)
    ensures var t := StripLeft(s);
            |Split(s)| == if |t| == 0 then 0 else 1 + |Split(t[WordEnd(t)..])|
  {
  }

  /** After the same leading whitespace, the first words of two texts with
      the same pattern end at the same place, and what follows them has the
      same pattern again. */
  lemma {:induction false} PatternWordEnd(s: string, t: string) returns (n: nat)
    requires SamePattern(s, t) && |StripLeft(s)| == |StripLeft(t)| > 0
    ensures n == WordEnd(StripLeft(s)) == WordEnd(StripLeft(t))
    ensures SamePattern(StripLeft(s)[n..], StripLeft(t)[n..])
  {
    var ls := StripLeft(s);
    var lt := StripLeft(t);
    SuffixPattern(s, t, |s| - |ls|);
    WordEndPattern(ls, lt);
    n := WordEnd(ls);
    SuffixPattern(ls, lt, n);
  }

  /** `s.lower().split()` has as many words as `s.split()`. */
  lemma {:induction false} LowerKeepsWordCount(s: string)
    ensures |Split(Lower(s))| == |Split(s)|
  {
    LowerKeepsPattern(s);
    SplitCountPattern(s, Lower(s));
  }

  // ---------------------------------------------------------------------------
  // Searching
  // ---------------------------------------------------------------------------

  /** `s.find(c)`: index of the first `c`, or -1. */
  function Find(s: string, c: char): (r: int)
    ensures -1 <= r < |s|
    ensures r >= 0 ==> s[r] == c
    ensures forall k :: 0 <= k < |s| && (r < 0 || k < r) ==> s[k] != c
  {
    if |s| == 0 then -1
    else if s[0] == c then 0
    else var k := Find(s[1..], c); if k < 0 then -1 else k + 1
  }

  /** `s.rfind(c)`: index of the last `c`, or -1. */
  function RFind(s: string, c: char): (r: int)
    ensures -1 <= r < |s|
    ensures r >= 0 ==> s[r] == c
    ensures forall k :: r < k < |s| ==> s[k] != c
  {
    if |s| == 0 then -1
    else if s[|s| - 1] == c then |s| - 1
    else RFind(s[..|s| - 1], c)
  }

  /** `s.replace(c, '')`. */
  function RemoveChar(s: string, c: char): (r: string)
    ensures c !in r
    ensures |r| <= |s|
    ensures c !in s ==> r == s
  {
    if |s| == 0 then ""
    else (if s[0] == c then "" else [s[0]]) + RemoveChar(s[1..], c)
  }

  /** Removal works piecewise, so the surviving characters keep their
      order: it distributes over concatenation. */
  lemma {:induction false} RemoveCharAppend(s: string, t: string, c: char)
    ensures RemoveChar(s + t, c) == RemoveChar(s, c) + RemoveChar(t, c)
    decreases |s|
  {
    if |s| == 0 {
      assert s + t == t;
    } else {
      var rest := s[1..];
      RemoveCharAppend(rest, t, c);
      HeadRest(s, t);
      RemoveCharAppendStep(s[0], rest, t, c);
    }
  }

  /** Every other character survives: removal touches only `c`. */
  lemma {:induction false} RemoveCharMembers(s: string, c: char, x: char)
    requires x != c
    ensures x in RemoveChar(s, c) <==> x in s
    decreases |s|
  {
    if |s| > 0 {
      assert s == [s[0]] + s[1..];
      RemoveCharMembers(s[1..], c, x);
    }
  }

  lemma {:induction false} HeadRest(s: string, t: string)
    requires |s| > 0
    ensures s == [s[0]] + s[1..]
    ensures s + t == [s[0]] + (s[1..] + t)
  {
  }

  lemma {:induction false} RemoveCharAppendStep(x: char, rest: string, t: string, c: char)
    requires RemoveChar(rest + t, c) == RemoveChar(rest, c) + RemoveChar(t, c)
    ensures RemoveChar([x] + (rest + t), c) == RemoveChar([x] + rest, c) + RemoveChar(t, c)
  {
    var head := if x == c then "" else [x];
    calc {
      RemoveChar([x] + (rest + t), c);
      { RemoveCharCons(x, rest + t, c); }
      head + (RemoveChar(rest, c) + RemoveChar(t, c));
      (head + RemoveChar(rest, c)) + RemoveChar(t, c);
      { RemoveCharCons(x, rest, c); }
      RemoveChar([x] + rest, c) + RemoveChar(t, c);
    }
  }

  lemma {:induction false} RemoveCharCons(x: char, rest: string, c: char)
    ensures RemoveChar([x] + rest, c) == (if x == c then "" else [x]) + RemoveChar(rest, c)
  {
    assert ([x] + rest)[1..] == rest;
  }

  /** Exactly the occurrences of `c` go: the length drops by their count. */
  lemma {:induction false} RemoveCharLength(s: string, c: char)
    ensures |RemoveChar(s, c)| == |s| - multiset(s)[c]
    decreases |s|
  {
    if |s| > 0 {
      assert s == [s[0]] + s[1..];
      assert multiset(s) == multiset([s[0]]) + multiset(s[1..]);
      RemoveCharLength(s[1..], c);
    }
  }

  /** `part` occurs in `whole` starting at index `k`. */
  predicate OccursAt(part: string, whole: string, k: nat) {
    k + |part| <= |whole| && whole[k..k + |part|] == part
  }

  /** Python's `part in whole` for strings. */
  ghost predicate IsSubstring(part: string, whole: string) {
    exists k: nat :: OccursAt(part, whole, k)
  }

  predicate StartsWith(s: string, prefix: string) {
    |prefix| <= |s| && s[..|prefix|] == prefix
  }

  predicate EndsWith(s: string, suffix: string) {
    |suffix| <= |s| && s[|s| - |suffix|..] == suffix
  }

  /** An occurrence inside `b` is an occurrence inside `a + b + c`. */
  lemma {:induction false} SubstringInMiddle(a: string, b: string, c: string, part: string)
    requires IsSubstring(part, b)
    ensures IsSubstring(part, a + b + c)
  {
    var off: nat :| OccursAt(part, b, off);
    assert (a + b + c)[|a| + off..|a| + off + |part|] == b[off..off + |part|];
    assert OccursAt(part, a + b + c, |a| + off);
  }

  lemma {:induction false} SubstringOfConcat(a: string, part: string, b: string)
    ensures IsSubstring(part, a + part + b)
  {
    assert (a + part + b)[|a|..|a| + |part|] == part;
    assert OccursAt(part, a + part + b, |a|);
  }

  /** Both filled-in parts of a template `a x b y c` occur in it. */
  lemma {:induction false} BothPartsOccur(a: string, x: string, b: string, y: string, c: string)
    ensures IsSubstring(x, a + x + b + y + c)
    ensures IsSubstring(y, a + x + b + y + c)
  {
    SubstringOfConcat(a, x, b + y + c);
    assert a + x + (b + y + c) == a + x + b + y + c;
    SubstringOfConcat(a + x + b, y, c);
  }

  // ---------------------------------------------------------------------------
  // Paths
  // ---------------------------------------------------------------------------

  /** `os.path.splitext(p)` on POSIX: the extension starts at the last dot
      of the final path component, unless that component holds only dots up
      to there (a leading-dot name such as `.bashrc` has no extension). */
  function SplitExt(p: string): (r: (string, string))
    ensures r.0 + r.1 == p
    ensures r.1 == "" || (r.1[0] == '.' && '.' !in r.1[1..] && '/' !in r.1)
  {
    var sep := RFind(p, '/');
    var dot := RFind(p, '.');
    if dot > sep && exists k :: sep + 1 <= k < dot && p[k] != '.' then
      assert p[..dot] + p[dot..] == p;
      (p[..dot], p[dot..])
    else
      (p, "")
  }

  /** `RFind` is determined by the last occurrence. */
  lemma {:induction false} RFindIs(s: string, c: char, k: int)
    requires -1 <= k < |s|
    requires k >= 0 ==> s[k] == c
    requires forall j :: k < j < |s| ==> s[j] != c
    ensures RFind(s, c) == k
  {
  }

  /** A dot that is the last one, with no separator after it and a
      character other than a dot or separator just before it, starts the
      extension. */
  lemma {:induction false} SplitExtAt(p: string, d: nat)
    requires 0 < d < |p| && p[d] == '.'
    requires p[d - 1] != '.' && p[d - 1] != '/'
    requires forall j :: d < j < |p| ==> p[j] != '.'
    requires forall j :: d - 1 <= j < |p| ==> p[j] != '/'
    ensures SplitExt(p) == (p[..d], p[d..])
  {
    RFindIs(p, '.', d);
  }

  /** A name whose final component has no dot has no extension. */
  lemma {:induction false} SplitExtNone(p: string)
    requires forall j :: RFind(p, '/') < j < |p| ==> p[j] != '.'
    ensures SplitExt(p) == (p, "")
  {
  }

  /** In a directory, a name with no dot or separator followed by an
      extension (possibly empty) splits into exactly that name and that
      extension. */
  lemma {:induction false} SplitExtAfterPlainName(dir: string, name: string, ext: string)
    requires |name| > 0 && '.' !in name && '/' !in name
    requires ext == "" || (ext[0] == '.' && '.' !in ext[1..] && '/' !in ext)
    ensures SplitExt(dir + "/" + name + ext) == (dir + "/" + name, ext)
  {
    var q := dir + "/";
    var p := q + name + ext;
    var d := |q| + |name|;
    assert forall j :: |q| <= j < d ==> p[j] == name[j - |q|];
    assert forall j :: d <= j < |p| ==> p[j] == ext[j - d];
    if ext == "" {
      assert p == q + name;
      RFindIs(p, '/', |q| - 1);
      SplitExtNone(p);
    } else {
      forall j | d < j < |p| ensures p[j] != '.' {
        assert p[j] == ext[1..][j - d - 1];
      }
      SplitExtAt(p, d);
      assert p[..d] == q + name;
      assert p[d..] == ext;
    }
  }

  /** Two different names without dots stay different once each is followed
      by an extension. */
  lemma {:induction false} PlainNamesDiffer(a: string, ea: string, b: string, eb: string)
    requires '.' !in a && '.' !in b && a != b
    requires ea == "" || ea[0] == '.'
    requires eb == "" || eb[0] == '.'
    ensures a + ea != b + eb
  {
    if |a| < |b| {
      if ea == "" {
        assert |a + ea| < |b + eb|;
      } else {
        assert (a + ea)[|a|] == '.' && (b + eb)[|a|] == b[|a|];
      }
    } else if |b| < |a| {
      if eb == "" {
        assert |b + eb| < |a + ea|;
      } else {
        assert (b + eb)[|b|] == '.' && (a + ea)[|b|] == a[|b|];
      }
    } else {
      var k :| 0 <= k < |a| && a[k] != b[k];
      assert (a + ea)[k] == a[k] && (b + eb)[k] == b[k];
    }
  }

  // ---------------------------------------------------------------------------
  // Decimal numerals
  // ---------------------------------------------------------------------------

  predicate IsDigit(c: char) { '0' <= c <= '9' }

  function DigitChar(d: nat): (c: char)
    requires d < 10
    ensures IsDigit(c)
  {
    ('0' as int + d) as char
  }

  /** `str(n)` for a non-negative integer. */
  function NatToString(n: nat): (s: string)
    ensures |s| > 0
    ensures forall i :: 0 <= i < |s| ==> IsDigit(s[i])
  {
    if n < 10 then [DigitChar(n)] else NatToString(n / 10) + [DigitChar(n % 10)]
  }

  /** `int(s)` for a string of decimal digits. */
  function ParseNat(s: string): nat
    requires forall i :: 0 <= i < |s| ==> IsDigit(s[i])
  {
    if |s| == 0 then 0
    else ParseNat(s[..|s| - 1]) * 10 + DigitValue(s[|s| - 1])
  }

  function DigitValue(c: char): (d: nat)
    requires IsDigit(c)
    ensures d < 10 && DigitChar(d) == c
  {
    c as int - '0' as int
  }

  /** Reading the numeral back gives the number: distinct numbers print
      distinct labels. */
  lemma {:induction false} ParseNatToString(n: nat)
    ensures ParseNat(NatToString(n)) == n
  {
    if n >= 10 {
      var s := NatToString(n);
      assert s[..|s| - 1] == NatToString(n / 10);
      ParseNatToString(n / 10);
    }
  }
}
