/** Reducing a page to prompt text: tags become spaces, script and style
    bodies vanish, white space collapses. */
module HtmlStripper {
  import opened Wrappers
  import opened Text
  import opened Framing

  // --------------------------------------------------------------- tag syntax

  predicate IsWhitespace(c: char) {
    c == ' ' || c == '\n' || c == '\r' || c == '\t' || c == '\U{C}'
  }

  predicate StartsWithCI(s: string, needle: string) {
    |needle| <= |s| && forall k {:trigger needle[k]} | 0 <= k < |needle| :: LowerChar(s[k]) == needle[k]
  }

  predicate BoundaryChar(c: char) {
    c == '>' || c == '/' || IsWhitespace(c)
  }

  /** Where a tag name may end: before one of its delimiters, or at the end. */
  predicate NameEndsAt(s: string, i: nat) {
    i >= |s| || BoundaryChar(s[i])
  }

  datatype RawTag = Script | Style

  function Opener(tag: RawTag): string {
    if tag.Script? then "<script" else "<style"
  }

  function Closer(tag: RawTag): string {
    if tag.Script? then "</script" else "</style"
  }

  predicate Opens(s: string, tag: RawTag) {
    StartsWithCI(s, Opener(tag)) && NameEndsAt(s, |Opener(tag)|)
  }

  predicate Closes(s: string, tag: RawTag) {
    StartsWithCI(s, Closer(tag)) && NameEndsAt(s, |Closer(tag)|)
  }

  /** The first `>` at or behind `from`. */
  function GtFrom(s: string, from: nat): (r: Option<nat>)
    ensures r.Some? ==> from <= r.value < |s| && s[r.value] == '>' && forall k | from <= k < r.value :: s[k] != '>'
    ensures r.None? ==> forall k | from <= k < |s| :: s[k] != '>'
    decreases |s| - from
  {
    if from >= |s| then None else if s[from] == '>' then Some(from) else GtFrom(s, from + 1)
  }

  /** Behind the closing tag of raw text, if there is one. */
  function CloseEnd(s: string, tag: RawTag): (r: Option<nat>)
    ensures r.Some? ==> 0 < r.value <= |s|
  {
    if s == "" then None
    else if Closes(s, tag) then
      match GtFrom(s, |Closer(tag)|)
      case None => None
      case Some(k) => Some(k + 1)
    else
      match CloseEnd(s[1..], tag)
      case None => None
      case Some(k) => Some(k + 1)
  }

  function RawTagOf(s: string): Option<RawTag> {
    if Opens(s, Script) then Some(Script) else if Opens(s, Style) then Some(Style) else None
  }

  /** Where reading goes on behind a `<`: behind its `>`, for raw text behind
      the closing tag, and `None` where the input ends first. */
  function Skip(s: string): (r: Option<nat>)
    requires s != ""
    ensures r.Some? ==> 0 < r.value <= |s|
  {
    match GtFrom(s, 1)
    case None => None
    case Some(e) =>
      match RawTagOf(s)
      case None => Some(e + 1)
      case Some(tag) =>
        match CloseEnd(s[e + 1..], tag)
        case None => None
        case Some(k) => Some(e + 1 + k)
  }

  /** The text of a page before its white space is collapsed. */
  function Strip(s: string): string {
    if s == "" then ""
    else if s[0] != '<' then [s[0]] + Strip(s[1..])
    else match Skip(s)
      case None => " "
      case Some(k) => " " + Strip(s[k..])
  }

  // ---------------------------------------------------------------- the loops

  /** A position relative to `from`, or the end of the input. */
  function At(input: string, from: nat, r: Option<nat>): nat {
    if r.Some? then from + r.value else |input|
  }

  lemma CloseStep(input: string, i: nat, tag: RawTag)
    requires i < |input|
    ensures var rest := input[i..];
            At(input, i, CloseEnd(rest, tag)) ==
              if Closes(rest, tag) then
                var gt := GtFrom(rest, |Closer(tag)|);
                if gt.Some? then i + gt.value + 1 else |input|
              else At(input, i + 1, CloseEnd(input[i + 1..], tag))
  {
    assert input[i..][1..] == input[i + 1..];
  }

  /** The first closing tag begins at `i`, and its `>` is at `gt`. */
  ghost predicate ClosedBy(s: string, tag: RawTag, i: nat, gt: nat) {
    && i < gt < |s| && Closes(s[i..], tag) && (forall j: nat | j < i :: !Closes(s[j..], tag))
    && i + |Closer(tag)| <= gt && s[gt] == '>' && forall k | i + |Closer(tag)| <= k < gt :: s[k] != '>'
  }

  /** Raw text ends behind the `>` of its first closing tag, if it has both. */
  ghost predicate EndsRawText(s: string, tag: RawTag, end: Option<nat>) {
    match end
    case None => forall i: nat, gt: nat :: !ClosedBy(s, tag, i, gt)
    case Some(e) => exists i: nat, gt: nat :: ClosedBy(s, tag, i, gt) && e == gt + 1
  }

  lemma {:induction false} CloseEndIsFirst(s: string, tag: RawTag)
    ensures EndsRawText(s, tag, CloseEnd(s, tag))
  {
    hide Closes;
    if s == "" {
    } else if Closes(s, tag) {
      ClosedHere(s, tag);
    } else {
      CloseEndIsFirst(s[1..], tag);
      if CloseEnd(s[1..], tag).Some? {
        var i: nat, gt: nat :| ClosedBy(s[1..], tag, i, gt) && CloseEnd(s[1..], tag).value == gt + 1;
        ClosedLater(s, tag, i, gt);
      } else {
        forall i: nat, gt: nat
          ensures !ClosedBy(s, tag, i, gt)
        {
          NotClosedHere(s, tag, i, gt);
        }
      }
    }
  }

  lemma NotClosedHere(s: string, tag: RawTag, i: nat, gt: nat)
    requires s != "" && !Closes(s, tag)
    requires forall i: nat, gt: nat :: !ClosedBy(s[1..], tag, i, gt)
    ensures !ClosedBy(s, tag, i, gt)
  {
    hide Closes;
    assert s[0..] == s;
    if i > 0 && gt > 0 {
      ClosedLater(s, tag, i - 1, gt - 1);
    }
  }

  lemma ClosedHere(s: string, tag: RawTag)
    requires s != "" && Closes(s, tag)
    ensures var g := GtFrom(s, |Closer(tag)|);
            EndsRawText(s, tag, if g.Some? then Some(g.value + 1) else None)
  {
    hide Closes;
    assert s[0..] == s;
    var g := GtFrom(s, |Closer(tag)|);
    if g.Some? {
      assert ClosedBy(s, tag, 0, g.value);
    }
  }

  lemma ClosedLater(s: string, tag: RawTag, i: nat, gt: nat)
    requires s != "" && !Closes(s, tag)
    ensures ClosedBy(s, tag, i + 1, gt + 1) <==> ClosedBy(s[1..], tag, i, gt)
  {
    hide Closes;
    var tail, n := s[1..], |Closer(tag)|;
    assert s[0..] == s;
    assert forall k | 0 <= k < |tail| :: tail[k] == s[k + 1];
    if i < |tail| {
      assert tail[i..] == s[i + 1..];
    }
    if ClosedBy(tail, tag, i, gt) {
      forall j: nat | j < i + 1
        ensures !Closes(s[j..], tag)
      {
        if j > 0 {
          assert s[j..] == tail[j - 1..];
        }
      }
      assert forall k | i + 1 + n <= k < gt + 1 :: s[k] == tail[k - 1];
    }
    if ClosedBy(s, tag, i + 1, gt + 1) {
      forall j: nat | j < i
        ensures !Closes(tail[j..], tag)
      {
        assert tail[j..] == s[j + 1..];
      }
    }
  }

  method FindClosingRawTextTag(input: string, from: nat, tag: RawTag) returns (end: nat)
    requires from <= |input|
    ensures var found := CloseEnd(input[from..], tag);
            end == At(input, from, found) && EndsRawText(input[from..], tag, found)
  {
    hide Closes, CloseEnd, EndsRawText;
    ghost var found := CloseEnd(input[from..], tag);
    CloseEndIsFirst(input[from..], tag);
    var i := from;
    while i < |input|
      invariant from <= i <= |input|
      invariant At(input, i, CloseEnd(input[i..], tag)) == At(input, from, found)
    {
      CloseStep(input, i, tag);
      var rest := input[i..];
      if Closes(rest, tag) {
        var close := GtFrom(rest, |Closer(tag)|);
        return if close.None? then |input| else i + close.value + 1;
      }
      i := i + 1;
    }
    NothingIsClosed(input, tag);
    return |input|;
  }

  lemma NothingIsClosed(input: string, tag: RawTag)
    ensures At(input, |input|, CloseEnd(input[|input|..], tag)) == |input|
  {
  }

  lemma StripStep(input: string, i: nat)
    requires i < |input|
    ensures Strip(input[i..]) ==
              if input[i] != '<' then [input[i]] + Strip(input[i + 1..])
              else " " + Strip(input[At(input, i, Skip(input[i..]))..])
  {
    hide Skip;
    var rest := input[i..];
    assert rest[1..] == input[i + 1..];
    if input[i] == '<' {
      match Skip(rest)
      case None => assert input[|input|..] == "";
      case Some(k) => assert rest[k..] == input[i + k..];
    }
  }

  /** Behind a `<`: the source's three branches. */
  method SkipTag(input: string, i: nat) returns (next: nat)
    requires i < |input|
    ensures next == At(input, i, Skip(input[i..])) && i < next <= |input|
  {
    hide RawTagOf, CloseEnd, GtFrom, EndsRawText;
    var rest := input[i..];
    var openEnd := GtFrom(rest, 1);
    var tag := RawTagOf(rest);
    if openEnd.None? {
      return |input|;
    }
    var after := i + openEnd.value + 1;
    if tag.None? {
      return after;
    }
    assert input[after..] == rest[openEnd.value + 1..];
    next := FindClosingRawTextTag(input, after, tag.value);
  }

  lemma StripEnds(input: string, out: string)
    ensures out + Strip(input[|input|..]) == out
  {
    assert input[|input|..] == "" && Strip("") == "";
  }

  /** The source's loop over the page; it always moves on. */
  method StripTags(input: string) returns (out: string)
    ensures out == Strip(input)
  {
    hide Skip, Strip;
    out := "";
    var i := 0;
    assert input[0..] == input && "" + Strip(input) == Strip(input);
    while i < |input|
      invariant 0 <= i <= |input|
      invariant out + Strip(input[i..]) == Strip(input)
      decreases |input| - i
    {
      StripStep(input, i);
      if input[i] != '<' {
        Associative(out, [input[i]], Strip(input[i + 1..]));
        out := out + [input[i]];
        i := i + 1;
      } else {
        var next := SkipTag(input, i);
        Associative(out, " ", Strip(input[next..]));
        out := out + " ";
        i := next;
      }
    }
    StripEnds(input, out);
  }

  /** No tag is left. */
  lemma {:induction false} StripLeavesNoTag(s: string)
    ensures '<' !in Strip(s)
    decreases |s|
  {
    hide Skip;
    if s != "" && s[0] != '<' {
      StripLeavesNoTag(s[1..]);
    } else if s != "" && Skip(s).Some? {
      StripLeavesNoTag(s[Skip(s).value..]);
    }
  }

  // -------------------------------------------------------------- white space

  /** The longest prefix free of white space. */
  function Word(s: string): (w: string)
    ensures w <= s && (forall i | 0 <= i < |w| :: !IsWhitespace(w[i]))
    ensures |w| < |s| ==> IsWhitespace(s[|w|])
  {
    if s == "" || IsWhitespace(s[0]) then "" else
      var rest := Word(s[1..]);
      assert s == [s[0]] + s[1..];
      [s[0]] + rest
  }

  predicate IsWord(w: string) {
    w != "" && forall k | 0 <= k < |w| :: !IsWhitespace(w[k])
  }

  /** The words of a text: its runs of anything but white space. */
  function Words(s: string): seq<string>
    decreases |s|
  {
    if s == "" then []
    else if IsWhitespace(s[0]) then Words(s[1..])
    else [Word(s)] + Words(s[|Word(s)|..])
  }

  /** Words with one space between each two. */
  function Spaced(words: seq<string>): string {
    if words == [] then ""
    else
      var n := |words| - 1;
      if n == 0 then words[0] else Spaced(words[..n]) + " " + words[n]
  }

  predicate InWord(s: string) {
    s != "" && !IsWhitespace(s[|s| - 1])
  }

  /** What one more character does to the words: white space ends a word,
      anything else extends the last word or starts a new one. */
  function Extended(words: seq<string>, inWord: bool, c: char): seq<string> {
    var n := |words|;
    if IsWhitespace(c) then words
    else if inWord && n > 0 then words[..n - 1] + [words[n - 1] + [c]]
    else words + [[c]]
  }

  lemma {:induction false} WordsSnoc(s: string, c: char)
    ensures InWord(s) ==> Words(s) != []
    ensures Words(s + [c]) == Extended(Words(s), InWord(s), c)
    decreases |s|
  {
    if s == "" {
      FirstCharacter(c);
      assert s + [c] == [c];
    } else if IsWhitespace(s[0]) {
      assert (s + [c])[1..] == s[1..] + [c];
      WordsSnoc(s[1..], c);
    } else if |Word(s)| < |s| {
      WordsSnoc(s[|Word(s)|..], c);
      LaterWordGrows(s, c);
    } else {
      OnlyWordGrows(s, c);
    }
  }

  lemma FirstCharacter(c: char)
    ensures Words([c]) == Extended([], false, c)
  {
    assert [c][1..] == "" && Words("") == [];
    if !IsWhitespace(c) {
      assert Word([c]) == [c];
    }
  }

  lemma OnlyWordGrows(s: string, c: char)
    requires s != "" && !IsWhitespace(s[0]) && |Word(s)| == |s|
    ensures Words(s) == [s] && InWord(s)
    ensures Words(s + [c]) == Extended([s], true, c)
  {
    hide Words, Extended, InWord;
    WholeWord(s);
    WordSnoc(s, c);
    if IsWhitespace(c) {
      WordAndRest(s + [c], s, [c]);
      FirstCharacter(c);
    } else {
      assert s + [c] == (s + [c]) + "";
      WordAndRest(s + [c], s + [c], "");
    }
    GrownAlone(s, c);
  }

  lemma WholeWord(s: string)
    requires s != "" && !IsWhitespace(s[0]) && |Word(s)| == |s|
    ensures Word(s) == s && Words(s) == [s] && Words("") == [] && InWord(s)
  {
    assert s[|s|..] == "";
  }

  lemma GrownAlone(s: string, c: char)
    ensures Extended([s], true, c) == [if IsWhitespace(c) then s else s + [c]] + []
    ensures IsWhitespace(c) ==> Extended([], false, c) == []
  {
    assert [s][..0] == [];
  }

  lemma WordAndRest(t: string, w: string, rest: string)
    requires t == w + rest && w != "" && !IsWhitespace(w[0]) && Word(t) == w
    ensures Words(t) == [w] + Words(rest)
  {
    assert t[0] == w[0] && t[|w|..] == rest;
  }

  lemma LaterWordGrows(s: string, c: char)
    requires s != "" && !IsWhitespace(s[0]) && |Word(s)| < |s|
    requires var rest := s[|Word(s)|..];
             && (InWord(rest) ==> Words(rest) != [])
             && Words(rest + [c]) == Extended(Words(rest), InWord(rest), c)
    ensures InWord(s) ==> Words(s) != []
    ensures Words(s + [c]) == Extended(Words(s), InWord(s), c)
  {
    hide Words, Extended, InWord, IsWhitespace;
    var w := Word(s);
    var rest := s[|w|..];
    WordSnoc(s, c);
    SameEnd(s, |w|);
    assert s == w + rest && s + [c] == w + (rest + [c]);
    assert w[0] == s[0];
    WordAndRest(s, w, rest);
    WordAndRest(s + [c], w, rest + [c]);
    ExtendedBehind(w, Words(rest), InWord(rest), c);
  }

  lemma SameEnd(s: string, n: nat)
    requires n < |s|
    ensures InWord(s[n..]) == InWord(s)
  {
  }

  lemma ExtendedBehind(w: string, words: seq<string>, inWord: bool, c: char)
    requires inWord ==> words != []
    ensures [w] + Extended(words, inWord, c) == Extended([w] + words, inWord, c)
  {
    if inWord {
      assert ([w] + words)[..|words|] == [w] + words[..|words| - 1];
    }
  }

  lemma {:induction false} WordSnoc(s: string, c: char)
    ensures Word(s + [c]) == if |Word(s)| == |s| && !IsWhitespace(c) then s + [c] else Word(s)
  {
    var t := s + [c];
    if s != "" {
      assert t[1..] == s[1..] + [c];
      WordSnoc(s[1..], c);
      assert s == [s[0]] + s[1..];
    } else {
      assert t[1..] == "";
    }
  }

  lemma SpacedSnoc(words: seq<string>, w: string)
    ensures Spaced(words + [w]) == if words == [] then w else Spaced(words) + " " + w
  {
    assert (words + [w])[..|words|] == words;
  }

  /** One more character of the last word. */
  lemma LastWordGrows(words: seq<string>, init: seq<string>, last: string, c: char)
    requires words == init + [last]
    ensures Spaced(init + [last + [c]]) == Spaced(words) + [c]
  {
    hide Spaced;
    SpacedSnoc(init, last);
    SpacedSnoc(init, last + [c]);
    Associative(Spaced(init) + " ", last, [c]);
  }

  lemma LastApart(words: seq<string>)
    requires words != []
    ensures words == words[..|words| - 1] + [words[|words| - 1]]
  {
  }

  lemma SpacedLastWordGrows(words: seq<string>, c: char)
    requires words != []
    ensures var n := |words| - 1; Spaced(words[..n] + [words[n] + [c]]) == Spaced(words) + [c]
  {
    hide Spaced;
    LastApart(words);
    LastWordGrows(words, words[..|words| - 1], words[|words| - 1], c);
  }

  lemma {:induction false} WordsAreWords(s: string)
    ensures forall i | 0 <= i < |Words(s)| ::
              Words(s)[i] != "" && forall k | 0 <= k < |Words(s)[i]| :: !IsWhitespace(Words(s)[i][k])
    ensures forall i | 0 <= i < |Words(s)| :: forall k | 0 <= k < |Words(s)[i]| :: Words(s)[i][k] in s
    decreases |s|
  {
    if s != "" && IsWhitespace(s[0]) {
      WordsAreWords(s[1..]);
    } else if s != "" {
      WordsAreWords(s[|Word(s)|..]);
    }
  }

  lemma {:induction false} WordBefore(w: string, rest: string)
    requires IsWord(w) && (rest == "" || IsWhitespace(rest[0]))
    ensures Word(w + rest) == w && Words(w + rest) == [w] + Words(rest)
  {
    hide Words;
    var t := w + rest;
    assert t[0] == w[0];
    if |w| == 1 {
      assert t[1..] == rest && Word(rest) == "";
    } else {
      assert t[1..] == w[1..] + rest;
      WordBefore(w[1..], rest);
    }
    assert Word(t) == w;
    WordAndRest(t, w, rest);
  }

  /** White space parts words. */
  lemma {:induction false} WordsArePartedBySpace(a: string, space: char, b: string)
    requires IsWhitespace(space)
    ensures Words(a + [space] + b) == Words(a) + Words(b)
    decreases |a|
  {
    var s := a + [space] + b;
    if a == "" {
      assert s[1..] == b;
    } else if IsWhitespace(a[0]) {
      assert s[1..] == a[1..] + [space] + b;
      WordsArePartedBySpace(a[1..], space, b);
    } else {
      var w := Word(a);
      var rest := a[|w|..];
      assert a == w + rest && w[0] == a[0];
      assert IsWord(w) && s == w + (rest + [space] + b);
      WordBefore(w, rest + [space] + b);
      WordsArePartedBySpace(rest, space, b);
    }
  }

  /** Spacing words out loses none: they are read back as they were. */
  lemma {:induction false} WordsOfSpaced(words: seq<string>)
    requires forall i | 0 <= i < |words| :: IsWord(words[i])
    ensures Words(Spaced(words)) == words
  {
    hide IsWord;
    if words != [] {
      var n := |words| - 1;
      var w := words[n];
      WordAlone(w);
      LastApart(words);
      if n > 0 {
        WordsOfSpaced(words[..n]);
        SpacedSnoc(words[..n], w);
        WordsArePartedBySpace(Spaced(words[..n]), ' ', w);
      }
    }
  }

  lemma WordAlone(w: string)
    requires IsWord(w)
    ensures Words(w) == [w]
  {
    WordBefore(w, "");
    assert w + "" == w && Words("") == [];
  }

  /** The text between pages and prompt: words, single spaces, trimmed ends. */
  function Collapsed(s: string): string {
    JsTrim(Spaced(Words(s)))
  }

  lemma NothingToCollapse()
    ensures Words("") == [] && Spaced([]) == ""
  {
  }

  method CollapseWhitespace(input: string) returns (out: string)
    ensures out == Collapsed(input)
  {
    hide Words, Spaced, JsTrim;
    NothingToCollapse();
    out := "";
    var pendingSpace := false;
    for i := 0 to |input|
      invariant out == Spaced(Words(input[..i]))
      invariant out != "" <==> Words(input[..i]) != []
      invariant pendingSpace <==> out != "" && !InWord(input[..i])
    {
      var c := input[i];
      assert input[..i + 1] == input[..i] + [c];
      ghost var words := Words(input[..i]);
      WordsSnoc(input[..i], c);
      if IsWhitespace(c) {
        pendingSpace := out != "";
      } else {
        if InWord(input[..i]) {
          SpacedLastWordGrows(words, c);
        } else {
          SpacedSnoc(words, [c]);
        }
        if pendingSpace {
          out := out + " ";
        }
        out := out + [c];
        pendingSpace := false;
      }
    }
    assert input[..|input|] == input;
    out := JsTrim(out);
  }

  const MAX_PROMPT_CHARS: nat := 8000

  method StripHtmlForPrompt(input: string) returns (prompt: string)
    ensures var text := Collapsed(Strip(input));
            prompt == if |text| <= MAX_PROMPT_CHARS then text else text[..MAX_PROMPT_CHARS]
  {
    var stripped := StripTags(input);
    prompt := CollapseWhitespace(stripped);
    if |prompt| > MAX_PROMPT_CHARS {
      prompt := prompt[..MAX_PROMPT_CHARS];
    }
  }

  // ------------------------------------------------------------ clean results

  /** White space is single spaces, never two in a row. */
  predicate SinglySpaced(s: string) {
    && (forall i | 0 <= i < |s| :: IsWhitespace(s[i]) ==> s[i] == ' ')
    && (forall i | 0 < i < |s| :: IsWhitespace(s[i - 1]) ==> !IsWhitespace(s[i]))
  }

  lemma {:induction false} SpacedIsClean(words: seq<string>)
    requires forall i | 0 <= i < |words| :: IsWord(words[i]) && '<' !in words[i]
    ensures SinglySpaced(Spaced(words)) && '<' !in Spaced(words)
    ensures words != [] ==> Spaced(words) != "" && InWord(Spaced(words))
  {
    if |words| > 1 {
      var n := |words| - 1;
      SpacedIsClean(words[..n]);
      var head, w := Spaced(words[..n]), words[n];
      var s := head + " " + w;
      assert IsWord(w);
      forall i | 0 <= i < |s|
        ensures IsWhitespace(s[i]) ==> s[i] == ' '
        ensures 0 < i && IsWhitespace(s[i - 1]) ==> !IsWhitespace(s[i])
      {
        if i > |head| {
          assert s[i] == w[i - |head| - 1];
        }
      }
    } else if |words| == 1 {
      assert IsWord(words[0]) && Spaced(words) == words[0];
    }
  }

  /** Before capping, the prompt text holds no tag, starts and ends outside
      white space, and has single spaces only, for every page. */
  lemma PromptTextIsClean(input: string)
    ensures var text := Collapsed(Strip(input));
            && '<' !in text
            && SinglySpaced(text)
            && (text != "" ==> !IsWhitespace(text[0]) && !IsWhitespace(text[|text| - 1]))
  {
    StripLeavesNoTag(input);
    var stripped := Strip(input);
    var words := Words(stripped);
    WordsAreWords(stripped);
    forall i | 0 <= i < |words|
      ensures IsWord(words[i]) && '<' !in words[i]
    {
    }
    SpacedIsClean(words);
    TrimmingKeepsClean(Spaced(words));
  }

  lemma TrimmingKeepsClean(spaced: string)
    requires SinglySpaced(spaced) && '<' !in spaced
    ensures var text := JsTrim(spaced);
            && '<' !in text
            && SinglySpaced(text)
            && (text != "" ==> !IsWhitespace(text[0]) && !IsWhitespace(text[|text| - 1]))
  {
    var lo, hi := JsTrimFacts(spaced);
    var text := spaced[lo..hi];
    forall i | 0 <= i < |text|
      ensures text[i] == spaced[lo + i] && text[i] != '<'
      ensures IsWhitespace(text[i]) ==> text[i] == ' '
      ensures 0 < i && IsWhitespace(text[i - 1]) ==> !IsWhitespace(text[i])
    {
      assert spaced[lo + i] in spaced;
      assert 0 < i ==> text[i - 1] == spaced[lo + i - 1];
    }
    assert forall c | IsWhitespace(c) :: IsJsSpace(c);
  }

  /** Collapsing only spaces the words out, unless these begin or end with
      white space of the language that is none of HTML. */
  lemma CollapsingKeepsTheWords(s: string)
    ensures Words(Spaced(Words(s))) == Words(s)
    ensures var spaced := Spaced(Words(s));
            Collapsed(s) == spaced <==> spaced == "" || (!IsJsSpace(spaced[0]) && !IsJsSpace(spaced[|spaced| - 1]))
  {
    hide Words, Spaced, JsTrim;
    var spaced := Spaced(Words(s));
    WordsAreWords(s);
    WordsOfSpaced(Words(s));
    var lo, hi := JsTrimFacts(spaced);
    assert Collapsed(s) == spaced[lo..hi];
    if spaced != "" && !IsJsSpace(spaced[0]) && !IsJsSpace(spaced[|spaced| - 1]) {
      assert lo == 0 && hi == |spaced|;
    }
    if spaced != "" && Collapsed(s) == spaced {
      assert |spaced| == hi - lo;
    }
  }

  // ------------------------------------------------------- raw text vanishes

  /** A complete opening tag of raw text: its `>` is its last character only. */
  predicate IsOpeningTag(s: string, tag: RawTag) {
    && |s| > |Opener(tag)| && Opens(s, tag) && s[0] == '<'
    && s[|s| - 1] == '>' && '>' !in s[..|s| - 1]
  }

  /** A body in which no closing tag is complete, not even at its end. */
  predicate HoldsNoCloser(body: string, tag: RawTag) {
    forall i | 0 <= i < |body| - |Closer(tag)| ::
      StartsWithCI(body[i..], Closer(tag)) ==> !BoundaryChar(body[i + |Closer(tag)|])
  }

  lemma OpenerStaysOpen(open: string, rest: string, tag: RawTag)
    requires IsOpeningTag(open, tag)
    ensures RawTagOf(open + rest) == Some(tag)
    ensures GtFrom(open + rest, 1) == Some(|open| - 1)
  {
    var s := open + rest;
    assert Opens(s, tag);
    assert tag.Style? ==> LowerChar(s[2]) == Opener(Style)[2];
    assert StartsWithCI(s, Opener(Script)) ==> LowerChar(s[2]) == Opener(Script)[2];
    forall k | 1 <= k < |open| - 1
      ensures s[k] != '>'
    {
      assert open[..|open| - 1][k] in open[..|open| - 1];
    }
    assert s[|open| - 1] == '>';
  }

  lemma MismatchAt(s: string, needle: string, k: nat)
    requires k < |s| && k < |needle| && LowerChar(s[k]) != needle[k]
    ensures !StartsWithCI(s, needle)
  {
  }

  lemma NoCloserHere(body: string, rest: string, tag: RawTag)
    requires body != "" && HoldsNoCloser(body, tag) && rest != "" && rest[0] == '<'
    ensures !Closes(body + rest, tag)
  {
    var s, n := body + rest, |Closer(tag)|;
    assert s[|body|] == '<' && !BoundaryChar('<');
    if |body| < n {
      MismatchAt(s, Closer(tag), |body|);
    } else if |body| > n {
      assert body[0..] == body && s[n] == body[0 + n];
      assert StartsWithCI(s, Closer(tag)) == StartsWithCI(body, Closer(tag));
    }
  }

  lemma CloserIsAllOfBody(body: string, tag: RawTag)
    requires HoldsNoCloser(body, tag) && Closes(body, tag)
    ensures |body| == |Closer(tag)|
  {
    assert body[0..] == body;
  }

  /** A body without a closing tag that nothing follows is never closed. */
  lemma {:induction false} BodyIsNeverClosed(body: string, tag: RawTag)
    requires HoldsNoCloser(body, tag)
    ensures CloseEnd(body, tag).None?
  {
    if body != "" && Closes(body, tag) {
      CloserIsAllOfBody(body, tag);
    } else if body != "" {
      NoCloserInTail(body, tag);
      BodyIsNeverClosed(body[1..], tag);
    }
  }

  lemma NoCloserInTail(body: string, tag: RawTag)
    requires body != "" && HoldsNoCloser(body, tag)
    ensures HoldsNoCloser(body[1..], tag)
  {
    var tail := body[1..];
    forall i | 0 <= i < |tail| - |Closer(tag)|
      ensures StartsWithCI(tail[i..], Closer(tag)) ==> !BoundaryChar(tail[i + |Closer(tag)|])
    {
      assert tail[i..] == body[i + 1..];
    }
  }

  /** A position found behind `n` more characters. */
  function Shift(n: nat, r: Option<nat>): Option<nat> {
    if r.Some? then Some(n + r.value) else None
  }

  /** What may follow a body: markup, or nothing at all. */
  predicate FollowsBody(rest: string) {
    rest == "" || rest[0] == '<'
  }

  /** A closing tag cannot begin inside a body that holds none and end in what
      follows. */
  lemma {:induction false} CloserIsBehindBody(body: string, rest: string, tag: RawTag)
    requires HoldsNoCloser(body, tag) && FollowsBody(rest)
    ensures CloseEnd(body + rest, tag) == Shift(|body|, CloseEnd(rest, tag))
    decreases |body|
  {
    hide Closes, HoldsNoCloser;
    var s := body + rest;
    if body == "" {
      assert s == rest;
    } else if rest == "" {
      assert s == body;
      BodyIsNeverClosed(body, tag);
    } else {
      NoCloserHere(body, rest, tag);
      assert s[1..] == body[1..] + rest;
      NoCloserInTail(body, tag);
      CloserIsBehindBody(body[1..], rest, tag);
    }
  }

  lemma SkipRawText(s: string, e: nat, tag: RawTag)
    requires GtFrom(s, 1) == Some(e) && RawTagOf(s) == Some(tag)
    ensures Skip(s) == Shift(e + 1, CloseEnd(s[e + 1..], tag))
  {
    hide RawTagOf, CloseEnd;
  }

  lemma StripSkips(s: string, skip: Option<nat>)
    requires s != "" && s[0] == '<' && Skip(s) == skip
    ensures Strip(s) == match skip case None => " " case Some(k) => " " + Strip(s[k..])
  {
    hide Skip;
  }

  /** A script or style element leaves one space, whatever its body; one left
      open takes the rest of the page along. */
  lemma ElementLeavesASpace(open: string, body: string, rest: string, tag: RawTag)
    requires IsOpeningTag(open, tag) && HoldsNoCloser(body, tag) && FollowsBody(rest)
    ensures Strip(open + (body + rest)) ==
              match CloseEnd(rest, tag) case None => " " case Some(k) => " " + Strip(rest[k..])
  {
    hide Skip, Strip, CloseEnd, GtFrom, RawTagOf, StartsWithCI, HoldsNoCloser;
    var n, inner, end := |open|, body + rest, CloseEnd(rest, tag);
    var s := open + inner;
    OpenerStaysOpen(open, inner, tag);
    assert s[0] == '<' && s[n..] == inner;
    CloserIsBehindBody(body, rest, tag);
    ElementSkipped(s, n, |body|, end, tag);
    if end.Some? {
      assert s[n + |body| + end.value..] == rest[end.value..];
    }
  }

  lemma ElementSkipped(s: string, n: nat, m: nat, end: Option<nat>, tag: RawTag)
    requires 0 < n <= |s| && s[0] == '<' && GtFrom(s, 1) == Some(n - 1) && RawTagOf(s) == Some(tag)
    requires CloseEnd(s[n..], tag) == Shift(m, end)
    requires end.Some? ==> n + m + end.value <= |s|
    ensures Strip(s) == match end case None => " " case Some(k) => " " + Strip(s[n + m + k..])
  {
    hide Skip, Strip, GtFrom, RawTagOf, CloseEnd;
    SkipRawText(s, n - 1, tag);
    StripSkips(s, Shift(n + m, end));
  }

  // --------------------------------------------------- what becomes of a page

  /** The text begins with a name, up to letter case, and the name ends there. */
  predicate IsNamed(s: string, name: string) {
    && |name| <= |s| && (forall k | 0 <= k < |name| :: SameLetter(s[k], name[k]))
    && (|s| == |name| || s[|name|] in {'>', '/', ' ', '\n', '\r', '\t', '\U{C}'})
  }

  /** The names that open and close raw text. */
  lemma RawTextNames(s: string)
    ensures Opens(s, Script) <==> IsNamed(s, "<script")
    ensures Opens(s, Style) <==> IsNamed(s, "<style")
    ensures Closes(s, Script) <==> IsNamed(s, "</script")
    ensures Closes(s, Style) <==> IsNamed(s, "</style")
  {
    BeginsUpToCase(s, "<script");
    BeginsUpToCase(s, "<style");
    BeginsUpToCase(s, "</script");
    BeginsUpToCase(s, "</style");
  }

  lemma BeginsUpToCase(s: string, needle: string)
    requires forall k | 0 <= k < |needle| :: LowerChar(needle[k]) == needle[k]
    ensures StartsWithCI(s, needle) && NameEndsAt(s, |needle|) <==> IsNamed(s, needle)
  {
    forall k | 0 <= k < |needle| && k < |s|
      ensures LowerChar(s[k]) == needle[k] <==> SameLetter(s[k], needle[k])
    {
      LowerCharFoldsCase(s[k], needle[k]);
    }
  }

  /** Text between tags is kept as it is. */
  lemma {:induction false} TextIsKept(text: string, rest: string)
    requires '<' !in text
    ensures Strip(text + rest) == text + Strip(rest)
  {
    hide Skip;
    if text == "" {
      assert text + rest == rest;
    } else {
      assert (text + rest)[1..] == text[1..] + rest;
      TextIsKept(text[1..], rest);
    }
  }

  /** A complete tag: its `>` is its last character only. */
  predicate IsTag(tag: string) {
    |tag| > 1 && tag[0] == '<' && tag[|tag| - 1] == '>' && '>' !in tag[..|tag| - 1]
  }

  /** A tag that opens no raw text leaves one space. */
  lemma TagLeavesASpace(tag: string, rest: string)
    requires IsTag(tag) && !IsNamed(tag, "<script") && !IsNamed(tag, "<style")
    ensures Strip(tag + rest) == " " + Strip(rest)
  {
    hide StartsWithCI, Strip, IsNamed;
    var s, e := tag + rest, |tag| - 1;
    RawTextNames(tag);
    forall k | 1 <= k < e
      ensures s[k] != '>'
    {
      assert tag[..e][k] in tag[..e];
    }
    assert s[e] == '>';
    assert GtFrom(s, 1) == Some(e);
    NamesAreLocal(tag, rest, Opener(Script), e);
    NamesAreLocal(tag, rest, Opener(Style), e);
    StripSkips(s, Some(e + 1));
    assert s[e + 1..] == rest;
  }

  /** A tag that is never completed takes the rest of the page along. */
  lemma OpenTagTakesTheRest(s: string)
    requires s != "" && s[0] == '<' && '>' !in s
    ensures Strip(s) == " "
  {
    hide RawTagOf;
    StripSkips(s, None);
  }

  // ---------------------------------------------------- what came before it

  /** The output of a text that ends between tags; `None` when it ends inside
      one, so that what follows would belong to it. */
  function StripWhole(s: string): Option<string> {
    if s == "" then Some("")
    else if s[0] != '<' then
      match StripWhole(s[1..])
      case None => None
      case Some(out) => Some([s[0]] + out)
    else
      match Skip(s)
      case None => None
      case Some(k) =>
        match StripWhole(s[k..])
        case None => None
        case Some(out) => Some(" " + out)
  }

  lemma {:induction false} GtExtends(s: string, more: string, from: nat)
    requires GtFrom(s, from).Some?
    ensures GtFrom(s + more, from) == GtFrom(s, from)
    decreases |s| - from
  {
    if s[from] != '>' {
      GtExtends(s, more, from + 1);
    }
  }

  /** A name that is over before a `>` reads the same whatever follows it. */
  lemma NamesAreLocal(s: string, more: string, needle: string, gt: nat)
    requires 1 <= gt < |s| && s[gt] == '>' && '>' !in needle
    ensures StartsWithCI(s + more, needle) && NameEndsAt(s + more, |needle|)
         <==> StartsWithCI(s, needle) && NameEndsAt(s, |needle|)
  {
    var t, n := s + more, |needle|;
    assert t[gt] == s[gt];
    if n > gt {
      assert needle[gt] in needle;
      MismatchAt(t, needle, gt);
      MismatchAt(s, needle, gt);
    } else {
      assert t[n] == s[n];
      assert forall k | 0 <= k < n :: t[k] == s[k];
    }
  }

  lemma {:induction false} CloseEndIsBehindGt(s: string, tag: RawTag)
    requires CloseEnd(s, tag).Some?
    ensures var end := CloseEnd(s, tag).value; end > 1 && s[end - 1] == '>'
  {
    if !Closes(s, tag) {
      CloseEndIsBehindGt(s[1..], tag);
    }
  }

  lemma {:induction false} CloseEndExtends(s: string, more: string, tag: RawTag)
    requires CloseEnd(s, tag).Some?
    ensures CloseEnd(s + more, tag) == CloseEnd(s, tag)
  {
    hide StartsWithCI;
    CloseEndIsBehindGt(s, tag);
    NamesAreLocal(s, more, Closer(tag), CloseEnd(s, tag).value - 1);
    if Closes(s, tag) {
      GtExtends(s, more, |Closer(tag)|);
    } else {
      assert (s + more)[1..] == s[1..] + more;
      CloseEndExtends(s[1..], more, tag);
    }
  }

  lemma SkipExtends(s: string, more: string)
    requires s != "" && Skip(s).Some?
    ensures Skip(s + more) == Skip(s)
  {
    hide CloseEnd, StartsWithCI;
    var e := GtFrom(s, 1).value;
    GtExtends(s, more, 1);
    NamesAreLocal(s, more, Opener(Script), e);
    NamesAreLocal(s, more, Opener(Style), e);
    assert RawTagOf(s + more) == RawTagOf(s);
    if RawTagOf(s).Some? {
      var tag := RawTagOf(s).value;
      SkipRawText(s, e, tag);
      SkipRawText(s + more, e, tag);
      assert (s + more)[e + 1..] == s[e + 1..] + more;
      CloseEndExtends(s[e + 1..], more, tag);
    }
  }

  /** A text that ends between tags is stripped on its own. */
  lemma {:induction false} StripAppends(pre: string, x: string)
    requires StripWhole(pre).Some?
    ensures Strip(pre + x) == StripWhole(pre).value + Strip(x)
    decreases |pre|
  {
    hide Skip;
    var s := pre + x;
    if pre == "" {
      assert s == x;
    } else if pre[0] != '<' {
      assert s[1..] == pre[1..] + x;
      StripAppends(pre[1..], x);
    } else {
      SkipExtends(pre, x);
      var k := Skip(pre).value;
      assert s[k..] == pre[k..] + x;
      StripAppends(pre[k..], x);
    }
  }

  /** Swapping the body of a script or style element reached between tags for
      any other body without a closing tag changes nothing. */
  lemma BodyNeverMatters(pre: string, open: string, body: string, other: string, rest: string, tag: RawTag)
    requires StripWhole(pre).Some? && IsOpeningTag(open, tag)
    requires HoldsNoCloser(body, tag) && HoldsNoCloser(other, tag) && FollowsBody(rest)
    ensures Strip(pre + (open + (body + rest))) == Strip(pre + (open + (other + rest)))
  {
    hide Strip, StripWhole, Skip, HoldsNoCloser, IsOpeningTag;
    StripAppends(pre, open + (body + rest));
    StripAppends(pre, open + (other + rest));
    ElementLeavesASpace(open, body, rest, tag);
    ElementLeavesASpace(open, other, rest, tag);
  }
}
