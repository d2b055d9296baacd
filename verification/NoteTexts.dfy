/** What the note patterns find, said in literal characters and positions of the text. */
module NoteTexts {
  import opened Assignees
  import opened NoteParser

  const LOWER_LETTERS := "abcdefghijklmnopqrstuvwxyz"
  const UPPER_LETTERS := "ABCDEFGHIJKLMNOPQRSTUVWXYZ"
  const DIGITS := "0123456789"

  // ---- The alphabet ----

  lemma LowerLetters(c: char)
    ensures 'a' <= c <= 'z' <==> c in LOWER_LETTERS
  {
    if 'a' <= c <= 'z' {
      assert LOWER_LETTERS[c as int - 'a' as int] == c;
    }
  }

  lemma UpperLetters(c: char)
    ensures 'A' <= c <= 'Z' <==> c in UPPER_LETTERS
  {
    if 'A' <= c <= 'Z' {
      assert UPPER_LETTERS[c as int - 'A' as int] == c;
    }
  }

  lemma Digits(c: char)
    ensures '0' <= c <= '9' <==> c in DIGITS
  {
    if '0' <= c <= '9' {
      assert DIGITS[c as int - '0' as int] == c;
    }
  }

  /** The word characters of the patterns. */
  lemma WordCharacters(c: char)
    ensures IsWord(c) <==> c in LOWER_LETTERS || c in UPPER_LETTERS || c in DIGITS || c == '_'
  {
    LowerLetters(c);
    UpperLetters(c);
    Digits(c);
  }

  /** A capital letter is seen as the small letter at the same place of the alphabet, and nothing else changes. */
  lemma LoweredCharacters(c: char)
    ensures forall i :: 0 <= i < 26 && c == UPPER_LETTERS[i] ==> ToLower(c) == LOWER_LETTERS[i]
    ensures c !in UPPER_LETTERS ==> ToLower(c) == c
  {
    UpperLetters(c);
  }

  // ---- Notes ----

  /** A name of small letters, digits and underscores. */
  ghost predicate Simple(u: string) {
    u != "" && forall c :: c in u ==> c in LOWER_LETTERS || c in DIGITS || c == '_'
  }

  /** The names that come back from a note are the simple ones. */
  lemma PlainIsSimple(u: string)
    ensures Plain(u) <==> Simple(u)
  {
    forall c | c in u
      ensures IsWord(c) && !('A' <= c <= 'Z') <==> c in LOWER_LETTERS || c in DIGITS || c == '_'
    {
      WordCharacters(c);
      UpperLetters(c);
      LowerLetters(c);
      Digits(c);
    }
  }

  lemma UsersOfOne(c: Change, a: Action)
    ensures UsersWith([c], a) == if c.action == a then [c.username] else []
  {
    assert [c][1..] == [];
  }

  lemma UsersOfTwo(c: Change, d: Change, a: Action)
    ensures UsersWith([c, d], a) == (if c.action == a then [c.username] else []) +
                                    (if d.action == a then [d.username] else [])
  {
    assert [c, d][1..] == [d];
    UsersOfOne(d, a);
  }

  lemma SimpleIsRenderable(u: string)
    requires Simple(u)
    ensures Plain(u) && ' ' !in u
  {
    PlainIsSimple(u);
    assert !IsWord(' ');
  }

  /** A note about one simple name is read as it is written. */
  lemma OneNameIsRead(u: string)
    requires Simple(u)
    ensures Parse("assigned to @" + u) == [Change(u, Assigned)]
    ensures Parse("unassigned @" + u) == [Change(u, Unassigned)]
  {
    SimpleIsRenderable(u);
    forall a: Action | a in {Assigned, Unassigned}
      ensures Parse(Render([Change(u, a)])) == [Change(u, a)]
    {
      var c := Change(u, a);
      UsersOfOne(c, Assigned);
      UsersOfOne(c, Unassigned);
      ParserRecoversIff([c]);
    }
    assert Render([Change(u, Assigned)]) == "assigned to @" + u;
    assert Render([Change(u, Unassigned)]) == "unassigned @" + u;
  }

  lemma RenderTwo(c: Change, d: Change)
    ensures Render([c, d]) == Pattern(c.action) + c.username + (" and " + Pattern(d.action)) + d.username
  {
    assert [c, d][1..] == [d];
    assert Render([c, d]) == (Pattern(c.action) + c.username) + (" and " + (Pattern(d.action) + d.username));
  }

  lemma TwoAreRead(c: Change, d: Change)
    requires c.action == Assigned && d.action == Unassigned && Simple(c.username) && Simple(d.username)
    ensures Parse(Render([c, d])) == [c, d] && Parse(Render([d, c])) == [c, d]
  {
    SimpleIsRenderable(c.username);
    SimpleIsRenderable(d.username);
    UsersOfTwo(c, d, Assigned);
    UsersOfTwo(c, d, Unassigned);
    UsersOfTwo(d, c, Assigned);
    UsersOfTwo(d, c, Unassigned);
    ParserRecoversIff([c, d]);
    ParserRecoversIff([d, c]);
  }

  lemma JoinedTexts()
    ensures " and " + Pattern(Assigned) == " and assigned to @" && " and " + Pattern(Unassigned) == " and unassigned @"
  {
  }

  /** So is a note about two, and the assignment comes first wherever it stands. */
  lemma TwoNamesAreRead(u: string, v: string)
    requires Simple(u) && Simple(v)
    ensures Parse("assigned to @" + u + " and unassigned @" + v) == [Change(u, Assigned), Change(v, Unassigned)]
    ensures Parse("unassigned @" + v + " and assigned to @" + u) == [Change(u, Assigned), Change(v, Unassigned)]
  {
    var c, d := Change(u, Assigned), Change(v, Unassigned);
    RenderTwo(c, d);
    RenderTwo(d, c);
    JoinedTexts();
    TwoAreRead(c, d);
  }

  /** The same letter, possibly one small and one capital. */
  predicate SameLetter(a: char, b: char) {
    a == b || exists i :: 0 <= i < 26 && {a, b} == {UPPER_LETTERS[i], LOWER_LETTERS[i]}
  }

  /** Two notes that differ in small and capital letters only are read alike. */
  lemma ParseIgnoresCase(a: string, b: string)
    requires |a| == |b| && forall i :: 0 <= i < |a| ==> SameLetter(a[i], b[i])
    ensures Parse(a) == Parse(b)
  {
    forall i | 0 <= i < |a|
      ensures ToLower(a[i]) == ToLower(b[i])
    {
      SameLetterIsLowered(a[i], b[i]);
    }
    assert Lower(a) == Lower(b);
  }

  lemma LetterCases(i: int)
    requires 0 <= i < 26
    ensures LOWER_LETTERS[i] !in UPPER_LETTERS
  {
    assert LOWER_LETTERS[i] in LOWER_LETTERS;
    LowerLetters(LOWER_LETTERS[i]);
    UpperLetters(LOWER_LETTERS[i]);
  }

  lemma SameLetterIsLowered(a: char, b: char)
    requires SameLetter(a, b)
    ensures ToLower(a) == ToLower(b)
  {
    if a != b {
      var i :| 0 <= i < 26 && {a, b} == {UPPER_LETTERS[i], LOWER_LETTERS[i]};
      LetterCases(i);
      assert a in {UPPER_LETTERS[i], LOWER_LETTERS[i]} && b in {UPPER_LETTERS[i], LOWER_LETTERS[i]};
      LoweredCharacters(a);
      LoweredCharacters(b);
    }
  }

  // ---- Any text ----

  /** The pattern p(\w+) matches at position i of the text and captures w, which no word character follows. */
  ghost predicate Captures(p: string, s: string, i: int, w: string) {
    && 0 <= i && i + |p| + |w| <= |s| && w != ""
    && s[i..i + |p|] == p && s[i + |p|..i + |p| + |w|] == w
    && (forall c :: c in w ==> IsWord(c))
    && (i + |p| + |w| < |s| ==> !IsWord(s[i + |p| + |w|]))
  }

  ghost predicate NoCapture(p: string, s: string, i: int) {
    forall w :: !Captures(p, s, i, w)
  }

  /** Leftmost first and without overlap: nothing is captured between one match and the next, nor after the last. */
  ghost predicate Leftmost(p: string, s: string, from: nat, ws: seq<string>, at: seq<nat>)
    decreases |ws|
  {
    && |at| == |ws|
    && if ws == [] then forall i :: from <= i <= |s| ==> NoCapture(p, s, i)
       else
         && from <= at[0] && (forall i :: from <= i < at[0] ==> NoCapture(p, s, i))
         && Captures(p, s, at[0], ws[0])
         && Leftmost(p, s, at[0] + |p| + |ws[0]|, ws[1..], at[1..])
  }

  lemma {:induction false} WordRunIsLongest(s: string, w: string)
    requires w <= s && (forall c :: c in w ==> IsWord(c)) && (|w| < |s| ==> !IsWord(s[|w|]))
    ensures WordRun(s) == w
  {
    if w != [] {
      assert w[0] in w && forall c :: c in w[1..] ==> c in w;
      WordRunIsLongest(s[1..], w[1..]);
    }
  }

  lemma MatchIsCapture(p: string, s: string, i: nat, w: string)
    requires i <= |s|
    ensures Captures(p, s, i, w) <==> MatchesHere(p, s[i..]) && w == WordRun(s[i..][|p|..])
  {
    var rest := s[i..];
    if Captures(p, s, i, w) {
      assert rest[..|p|] == p && rest[|p|..][..|w|] == w;
      assert |w| < |rest[|p|..]| ==> rest[|p|..][|w|] == s[i + |p| + |w|];
      WordRunIsLongest(rest[|p|..], w);
    }
    if MatchesHere(p, rest) && w == WordRun(rest[|p|..]) {
      assert s[i..i + |p|] == rest[..|p|] == p;
      assert s[i + |p|..i + |p| + |w|] == rest[|p|..][..|w|];
      assert |w| < |rest[|p|..]| ==> rest[|p|..][|w|] == s[i + |p| + |w|];
    }
  }

  lemma LeftmostMatch(p: string, s: string, from: nat, w: string, ws: seq<string>, at: seq<nat>)
    requires Captures(p, s, from, w) && Leftmost(p, s, from + |p| + |w|, ws, at)
    ensures Leftmost(p, s, from, [w] + ws, [from] + at)
  {
    assert ([from] + at)[1..] == at && ([w] + ws)[1..] == ws;
  }

  lemma LeftmostSkips(p: string, s: string, from: nat, ws: seq<string>, at: seq<nat>)
    requires NoCapture(p, s, from) && Leftmost(p, s, from + 1, ws, at)
    ensures Leftmost(p, s, from, ws, at)
  {
  }

  lemma NoMatchNoCapture(p: string, s: string, i: nat)
    requires i <= |s| && !MatchesHere(p, s[i..])
    ensures NoCapture(p, s, i)
  {
    forall w
      ensures !Captures(p, s, i, w)
    {
      MatchIsCapture(p, s, i, w);
    }
  }

  lemma {:induction false} Suffix(s: string, i: nat, j: nat)
    requires i + j <= |s|
    ensures s[i..][j..] == s[i + j..]
  {
  }

  lemma {:induction false} FindAllMatch(p: string, s: string, w: string, ws: seq<string>)
    requires s != "" && MatchesHere(p, s) && w == WordRun(s[|p|..]) && ws == FindAll(p, s[|p| + |w|..])
    ensures [w] + ws == FindAll(p, s)
  {
  }

  lemma {:induction false} FindAllSkip(p: string, s: string, ws: seq<string>)
    requires s != "" && !MatchesHere(p, s) && ws == FindAll(p, s[1..])
    ensures ws == FindAll(p, s)
  {
  }

  lemma {:induction false} CapturesFrom(p: string, s: string, from: nat, ws: seq<string>) returns (at: seq<nat>)
    requires from <= |s| && ws == FindAll(p, s[from..])
    ensures Leftmost(p, s, from, ws, at)
    decreases |s| - from
  {
    if from == |s| {
      NoMatchNoCapture(p, s, from);
      at := [];
    } else if MatchesHere(p, s[from..]) {
      var w := WordRun(s[from..][|p|..]);
      var more := FindAll(p, s[from + |p| + |w|..]);
      Suffix(s, from, |p| + |w|);
      FindAllMatch(p, s[from..], w, more);
      MatchIsCapture(p, s, from, w);
      at := CapturesFrom(p, s, from + |p| + |w|, more);
      LeftmostMatch(p, s, from, w, more, at);
      at := [from] + at;
    } else {
      NoMatchNoCapture(p, s, from);
      Suffix(s, from, 1);
      FindAllSkip(p, s[from..], FindAll(p, s[from + 1..]));
      at := CapturesFrom(p, s, from + 1, ws);
      LeftmostSkips(p, s, from, ws, at);
    }
  }

  /** On any text the parser's captures are those of the pattern. */
  lemma {:induction false} CapturesAreLeftmost(p: string, s: string) returns (at: seq<nat>)
    ensures Leftmost(p, s, 0, FindAll(p, s), at)
  {
    assert s[0..] == s;
    at := CapturesFrom(p, s, 0, FindAll(p, s));
  }

  lemma PatternTexts()
    ensures Pattern(Assigned) == "assigned to @" && Pattern(Unassigned) == "unassigned @"
  {
  }

  /** The parse of any text: the captures of both patterns in the lower-cased text, assignments first. */
  lemma {:induction false} ParseOfText(body: string)
    returns (added: seq<string>, on: seq<nat>, dropped: seq<string>, off: seq<nat>)
    ensures Leftmost(Pattern(Assigned), Lower(body), 0, added, on)
    ensures Leftmost(Pattern(Unassigned), Lower(body), 0, dropped, off)
    ensures Parse(body) == Tag(added, Assigned) + Tag(dropped, Unassigned)
  {
    added, dropped := FindAll(Pattern(Assigned), Lower(body)), FindAll(Pattern(Unassigned), Lower(body));
    on := CapturesAreLeftmost(Pattern(Assigned), Lower(body));
    off := CapturesAreLeftmost(Pattern(Unassigned), Lower(body));
  }
}
