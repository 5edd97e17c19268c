/** The automatic session title of `backend/routers/sessions.py`
    (`auto_generate_title`): the first uploaded file's name when the session
    has files, otherwise a short, capitalised prefix of the user's first
    query, with greetings collapsed to a fixed title. */
module SessionTitle {
  import opened Wrappers
  import opened Text

  /** "📄 " — the page-facing-up emoji and a space. */
  const FILE_TITLE_PREFIX: string := "\U{1F4C4} "
  const GENERAL_TITLE: string := "General Discussion"
  const GREETINGS: seq<string> := ["hello", "hi", "hey", "good morning", "greetings"]
  const TITLE_WORDS: nat := 5
  const TITLE_CAP: nat := 50

  /** `name.rsplit(".", 1)[0]` when the name contains a dot, else the name:
      only the text from the last dot on is removed. */
  function DropLastSuffix(name: string): (stem: string)
    ensures '.' !in name ==> stem == name
    ensures '.' in name ==>
              && |stem| < |name| && name[..|stem|] == stem
              && name[|stem|] == '.' && '.' !in name[|stem| + 1..]
  {
    if '.' in name then name[..RFind(name, '.')] else name
  }

  /** The greeting test on the stripped query: the whole lower-cased query
      is a greeting, or it is a single token that is a greeting once its
      exclamation marks are removed. */
  predicate IsGreeting(query: string) {
    var q := Strip(query);
    var lq := Lower(q);
    lq in GREETINGS || (|Split(q)| < 2 && RemoveChar(lq, '!') in GREETINGS)
  }

  /** The title text before the cap and capitalisation. */
  function QueryTitleText(q: string): string {
    var words := Split(q);
    if |words| <= TITLE_WORDS then q else Join(words[..TITLE_WORDS], " ") + "..."
  }

  function Cap(t: string): (r: string)
    ensures |r| <= TITLE_CAP && |r| <= |t| && r == t[..|r|]
    ensures |t| <= TITLE_CAP ==> r == t
  {
    if |t| <= TITLE_CAP then t else t[..TITLE_CAP]
  }

  /** The title for a session without files. */
  function QueryTitle(query: string): string {
    if IsGreeting(query) then GENERAL_TITLE
    else Capitalize(Cap(QueryTitleText(Strip(query))))
  }

  /** The title computed by `auto_generate_title`; `filenames` are the
      session's file names in the order the store lists them. */
  function AutoTitle(filenames: seq<string>, query: string): string {
    if |filenames| > 0 then FILE_TITLE_PREFIX + DropLastSuffix(filenames[0])
    else QueryTitle(query)
  }

  /** The handler: compute the title and store it. Updating a session id
      the store does not know changes nothing (an SQL UPDATE matching no
      row). When the title write raises (`writeFault` holds its message),
      the exception escapes the route: no title is returned and no title
      changes. */
  function AutoGenerateTitle(titles: map<string, string>, sessionId: string,
                             filenames: seq<string>, query: string, writeFault: Option<string>)
    : (r: (map<string, string>, Result<string, string>))
    ensures r.1.Failure? <==> writeFault.Some?
    ensures r.1.Failure? ==> r.1.error == writeFault.value && r.0 == titles
    ensures r.1.Success? ==> r.1.value == AutoTitle(filenames, query)
    ensures r.1.Success? && sessionId in titles ==> sessionId in r.0 && r.0[sessionId] == r.1.value
    ensures forall s :: s in r.0 <==> s in titles
    ensures forall s :: s in titles && s != sessionId ==> r.0[s] == titles[s]
  {
    match writeFault
    case Some(e) => (titles, Failure(e))
    case None =>
      var title := AutoTitle(filenames, query);
      (if sessionId in titles then titles[sessionId := title] else titles, Success(title))
  }

  // ---------------------------------------------------------------------------
  // Properties
  // ---------------------------------------------------------------------------

  /** With files, the query plays no part: the title is the icon and the
      first name with its last suffix dropped, neither capped nor
      re-cased. */
  lemma {:induction false} FileTitleIgnoresQuery(filenames: seq<string>, q1: string, q2: string)
    requires |filenames| > 0
    ensures AutoTitle(filenames, q1) == AutoTitle(filenames, q2)
    ensures var stem := DropLastSuffix(filenames[0]);
            && AutoTitle(filenames, q1)[..|FILE_TITLE_PREFIX|] == FILE_TITLE_PREFIX
            && AutoTitle(filenames, q1)[|FILE_TITLE_PREFIX|..] == stem
  {
  }

  lemma {:induction false} UpperIdempotent(c: char)
    ensures UpperChar(UpperChar(c)) == UpperChar(c)
  {
  }

  lemma {:induction false} LowerIdempotent(c: char)
    ensures LowerChar(LowerChar(c)) == LowerChar(c)
  {
  }

  /** Capitalising twice is capitalising once: every query title is already
      in capitalised form. */
  lemma {:induction false} CapitalizeIdempotent(s: string)
    ensures Capitalize(Capitalize(s)) == Capitalize(s)
  {
    var c := Capitalize(s);
    var cc := Capitalize(c);
    forall i | 0 <= i < |s| ensures cc[i] == c[i] {
      if i == 0 {
        UpperIdempotent(s[0]);
      } else {
        LowerIdempotent(s[i]);
      }
    }
  }

  /** A query title has at most 50 characters, an upper-cased first
      character and lower-cased remaining characters. */
  lemma {:induction false} QueryTitleShape(query: string)
    requires !IsGreeting(query)
    ensures var t := AutoTitle([], query);
            && |t| <= TITLE_CAP
            && Capitalize(t) == t
            && (|t| > 0 ==> t[0] == UpperChar(t[0]))
            && (forall i :: 1 <= i < |t| ==> t[i] == LowerChar(t[i]))
  {
    var t := AutoTitle([], query);
    CapitalizeIdempotent(Cap(QueryTitleText(Strip(query))));
  }

  /** Without files, the fixed "General Discussion" title comes out exactly
      for greetings: a capitalised query title can never spell it, because
      its ninth character is upper case. */
  lemma {:induction false} GeneralTitleIffGreeting(query: string)
    ensures AutoTitle([], query) == GENERAL_TITLE <==> IsGreeting(query)
  {
    if !IsGreeting(query) {
      CapitalizedIsNotGeneral(Cap(QueryTitleText(Strip(query))));
    }
  }

  lemma {:induction false} CapitalizedIsNotGeneral(s: string)
    ensures Capitalize(s) != GENERAL_TITLE
  {
    var c := Capitalize(s);
    if |c| == |GENERAL_TITLE| {
      assert GENERAL_TITLE[8] == 'D';
      assert c[8] == LowerChar(s[8]);
    }
  }

  /** A query of more than five words is cut to its first five words and
      "..." is appended; the stored title is that text cut to 50
      characters and capitalised, so it agrees with it up to letter case.
      The exact layout of the five words is given by `LongQueryWordAt`,
      `LongQuerySpaceAt` and `LongQueryLength`. */
  lemma {:induction false} LongQueryKeepsFirstFiveWords(query: string)
    requires |Split(Strip(query))| > TITLE_WORDS
    ensures var text := QueryTitleText(Strip(query));
            && text[|text| - 3..] == "..."
            && Split(text[..|text| - 3]) == Split(Strip(query))[..TITLE_WORDS]
    ensures var text := QueryTitleText(Strip(query));
            var t := AutoTitle([], query);
            && |t| == (if |text| <= TITLE_CAP then |text| else TITLE_CAP)
            && forall i :: 0 <= i < |t| ==> LowerChar(t[i]) == LowerChar(text[i])
  {
    var words := Split(Strip(query));
    SplitYieldsWords(Strip(query));
    PrefixWordsRoundTrip(words, TITLE_WORDS);
    var joined := Join(words[..TITLE_WORDS], " ");
    var text := joined + "...";
    assert text[..|text| - 3] == joined;
    LongQueryIsNotGreeting(query);
    CappedTitleAgreesIgnoringCase(text);
  }

  /** A query of more than five words is never taken for a greeting: every
      greeting has at most two words, and lower-casing does not change the
      word count. */
  lemma {:induction false} LongQueryIsNotGreeting(query: string)
    requires |Split(Strip(query))| > TITLE_WORDS
    ensures !IsGreeting(query)
  {
    var q := Strip(query);
    LowerKeepsWordCount(q);
    if Lower(q) in GREETINGS {
      GreetingWordCount(Lower(q));
    }
  }

  /** Every greeting is one word, or two words with a space between. */
  lemma {:induction false} GreetingWordCount(g: string)
    requires g in GREETINGS
    ensures |Split(g)| <= 2
  {
    if g == "good morning" {
      var a := g[..4];
      var b := g[5..];
      assert g == a + " " + b;
      SplitTwoWords(a, b);
    } else {
      assert IsWord(g);
      SplitSingleWord(g);
    }
  }

  lemma {:induction false} SplitTwoWords(a: string, b: string)
    requires IsWord(a) && IsWord(b)
    ensures Split(a + " " + b) == [a, b]
  {
    assert Join([a, b], " ") == a + " " + b;
    SplitJoinRoundTrip([a, b]);
  }

  /** In `text`, word `k` of the first five of `words` starts after every
      earlier word and its single space. */
  predicate WordAt(words: seq<string>, text: string, k: nat)
    requires k < TITLE_WORDS <= |words|
  {
    OccursAt(words[k], text, JoinOffset(words[..TITLE_WORDS], 1, k))
  }

  /** In `text`, word `k` of the first five of `words` is followed by one
      space, at the offset where the joined words place it. */
  predicate SpaceAfterWord(words: seq<string>, text: string, k: nat)
    requires k < TITLE_WORDS <= |words|
  {
    OccursAt(" ", text, JoinOffset(words[..TITLE_WORDS], 1, k) + |words[k]|)
  }

  /** In a long query's title text, word `k` of the first five starts after
      every earlier word and its single space. */
  lemma {:induction false} LongQueryWordAt(query: string, k: nat)
    requires |Split(Strip(query))| > TITLE_WORDS && k < TITLE_WORDS
    ensures WordAt(Split(Strip(query)), QueryTitleText(Strip(query)), k)
  {
    var q := Strip(query);
    LongTitleText(q);
    HeadWordAt(Split(q), QueryTitleText(q), k);
  }

  /** Each of the first four words is followed by exactly one space. */
  lemma {:induction false} LongQuerySpaceAt(query: string, k: nat)
    requires |Split(Strip(query))| > TITLE_WORDS && k + 1 < TITLE_WORDS
    ensures SpaceAfterWord(Split(Strip(query)), QueryTitleText(Strip(query)), k)
  {
    var q := Strip(query);
    LongTitleText(q);
    HeadSpaceAt(Split(q), QueryTitleText(q), k);
  }

  lemma {:induction false} HeadWordAt(words: seq<string>, text: string, k: nat)
    requires |words| > TITLE_WORDS && k < TITLE_WORDS
    requires text == Join(words[..TITLE_WORDS], " ") + "..."
    ensures WordAt(words, text, k)
  {
    var head := words[..TITLE_WORDS];
    assert head[k] == words[k];
    EllipsisWordAt(head, k);
  }

  lemma {:induction false} HeadSpaceAt(words: seq<string>, text: string, k: nat)
    requires |words| > TITLE_WORDS && k + 1 < TITLE_WORDS
    requires text == Join(words[..TITLE_WORDS], " ") + "..."
    ensures SpaceAfterWord(words, text, k)
  {
    var head := words[..TITLE_WORDS];
    assert head[k] == words[k];
    EllipsisSpaceAt(head, k);
  }

  lemma {:induction false} EllipsisWordAt(head: seq<string>, k: nat)
    requires k < |head|
    ensures OccursAt(head[k], Join(head, " ") + "...", JoinOffset(head, 1, k))
  {
    var joined := Join(head, " ");
    JoinPieceAt(head, " ", k);
    OccursAtWrapped(head[k], "", joined, "...", JoinOffset(head, 1, k));
    assert "" + joined + "..." == joined + "...";
  }

  lemma {:induction false} EllipsisSpaceAt(head: seq<string>, k: nat)
    requires k + 1 < |head|
    ensures OccursAt(" ", Join(head, " ") + "...", JoinOffset(head, 1, k) + |head[k]|)
  {
    var joined := Join(head, " ");
    JoinSeparatorAt(head, " ", k);
    OccursAtWrapped(" ", "", joined, "...", JoinOffset(head, 1, k) + |head[k]|);
    assert "" + joined + "..." == joined + "...";
  }

  /** The title text is exactly the five words, four single spaces and
      "...": nothing else is in it. */
  lemma {:induction false} LongQueryLength(query: string)
    requires |Split(Strip(query))| > TITLE_WORDS
    ensures var words := Split(Strip(query));
            |QueryTitleText(Strip(query))| == JoinOffset(words[..TITLE_WORDS], 1, TITLE_WORDS) - 1 + 3
  {
    var q := Strip(query);
    LongTitleText(q);
    JoinLength(Split(q)[..TITLE_WORDS], " ");
  }

  lemma {:induction false} LongTitleText(q: string)
    requires |Split(q)| > TITLE_WORDS
    ensures QueryTitleText(q) == Join(Split(q)[..TITLE_WORDS], " ") + "..."
  {
  }

  /** The first `n` words, space-joined, split back into themselves. */
  lemma {:induction false} PrefixWordsRoundTrip(words: seq<string>, n: nat)
    requires n <= |words|
    requires forall i :: 0 <= i < |words| ==> IsWord(words[i])
    ensures Split(Join(words[..n], " ")) == words[..n]
  {
    var first := words[..n];
    assert forall i :: 0 <= i < |first| ==> first[i] == words[i];
    SplitJoinRoundTrip(first);
  }

  /** A query of at most five words keeps its stripped text whole, subject
      only to the cap. */
  lemma {:induction false} ShortQueryKeptWhole(query: string)
    requires !IsGreeting(query) && |Split(Strip(query))| <= TITLE_WORDS
    ensures var q := Strip(query);
            var t := AutoTitle([], query);
            && |t| == (if |q| <= TITLE_CAP then |q| else TITLE_CAP)
            && forall i :: 0 <= i < |t| ==> LowerChar(t[i]) == LowerChar(q[i])
  {
    CappedTitleAgreesIgnoringCase(Strip(query));
  }

  lemma {:induction false} CappedTitleAgreesIgnoringCase(q: string)
    ensures var t := Capitalize(Cap(q));
            && |t| == (if |q| <= TITLE_CAP then |q| else TITLE_CAP)
            && forall i :: 0 <= i < |t| ==> LowerChar(t[i]) == LowerChar(q[i])
  {
    var t := Capitalize(Cap(q));
    forall i | 0 <= i < |t| ensures LowerChar(t[i]) == LowerChar(q[i]) {
      if i == 0 {
        assert t[0] == UpperChar(q[0]);
      } else {
        LowerIdempotent(q[i]);
      }
    }
  }
}
