/**
 Recovering assignee changes from the text of a GitLab system note.
 Text is taken as ASCII, which is what GitLab allows in usernames.
 */
module NoteParser {
  import opened Assignees

  const ASSIGNED_TO := "assigned to @"
  const UNASSIGNED := "unassigned @"

  predicate IsWord(c: char) {
    'a' <= c <= 'z' || 'A' <= c <= 'Z' || '0' <= c <= '9' || c == '_'
  }

  function ToLower(c: char): char {
    if 'A' <= c <= 'Z' then c - 'A' + 'a' else c
  }

  function Lower(s: string): (r: string)
    ensures |r| == |s| && forall i :: 0 <= i < |s| ==> r[i] == ToLower(s[i])
  {
    seq(|s|, i requires 0 <= i < |s| => ToLower(s[i]))
  }

  /** The longest prefix of word characters: what the greedy group (\w+) captures. */
  function WordRun(s: string): (w: string)
    ensures w <= s && forall c :: c in w ==> IsWord(c)
    ensures |w| < |s| ==> !IsWord(s[|w|])
  {
    if s == [] || !IsWord(s[0]) then [] else [s[0]] + WordRun(s[1..])
  }

  predicate MatchesHere(p: string, s: string) {
    p <= s && WordRun(s[|p|..]) != []
  }

  /** All captures of the pattern "p(\w+)", leftmost first and not overlapping. */
  function FindAll(p: string, s: string): seq<string>
    decreases |s|
  {
    if s == [] then []
    else if MatchesHere(p, s) then
      var w := WordRun(s[|p|..]);
      [w] + FindAll(p, s[|p| + |w|..])
    else FindAll(p, s[1..])
  }

  function Tag(users: seq<string>, a: Action): (cs: seq<Change>)
    ensures |cs| == |users| && forall i :: 0 <= i < |users| ==> cs[i] == Change(users[i], a)
  {
    seq(|users|, i requires 0 <= i < |users| => Change(users[i], a))
  }

  function Parse(body: string): seq<Change> {
    Tag(FindAll(ASSIGNED_TO, Lower(body)), Assigned) + Tag(FindAll(UNASSIGNED, Lower(body)), Unassigned)
  }

  method ParseAssigneeChangeFromSystemNote(body: string) returns (changes: seq<Change>)
    ensures changes == Parse(body)
  {
    var lowered := Lower(body);
    changes := [];
    var assignedMatches := FindAll(ASSIGNED_TO, lowered);
    for i := 0 to |assignedMatches|
      invariant changes == Tag(assignedMatches[..i], Assigned)
    {
      changes := changes + [Change(assignedMatches[i], Assigned)];
    }
    assert assignedMatches[..|assignedMatches|] == assignedMatches;
    var unassignedMatches := FindAll(UNASSIGNED, lowered);
    for i := 0 to |unassignedMatches|
      invariant changes == Tag(assignedMatches, Assigned) + Tag(unassignedMatches[..i], Unassigned)
    {
      changes := changes + [Change(unassignedMatches[i], Unassigned)];
    }
    assert unassignedMatches[..|unassignedMatches|] == unassignedMatches;
  }

  // ---- Notes as GitLab writes them ----

  function Pattern(a: Action): string {
    if a.Assigned? then ASSIGNED_TO else UNASSIGNED
  }

  function Phrase(c: Change): string {
    Pattern(c.action) + c.username
  }

  function And(rest: string): string {
    " and " + rest
  }

  function Render(cs: seq<Change>): string {
    if cs == [] then ""
    else if |cs| == 1 then Phrase(cs[0])
    else Phrase(cs[0]) + And(Render(cs[1..]))
  }

  /** A username as the parser sees it: lower-cased and cut at the first character that is not a word character. */
  function Seen(u: string): string {
    WordRun(Lower(u))
  }

  function UsersWith(cs: seq<Change>, a: Action): seq<string> {
    if cs == [] then []
    else (if cs[0].action == a then [cs[0].username] else []) + UsersWith(cs[1..], a)
  }

  function SeenOf(us: seq<string>): seq<string> {
    if us == [] then []
    else (if Seen(us[0]) == [] then [] else [Seen(us[0])]) + SeenOf(us[1..])
  }

  /** The note lists assignments and unassignments of users whose names hold no space. */
  ghost predicate Renderable(cs: seq<Change>) {
    forall c :: c in cs ==> !c.action.Unrecognised? && ' ' !in c.username
  }

  ghost predicate EndOfPhrase(s: string) {
    s == [] || " and " <= s
  }

  lemma {:induction false} Skip(p: string, x: string, rest: string)
    requires forall k :: 0 <= k < |x| ==> !MatchesHere(p, (x + rest)[k..])
    ensures FindAll(p, x + rest) == FindAll(p, rest)
  {
    if x == [] {
      assert x + rest == rest;
    } else {
      assert (x + rest)[0..] == x + rest;
      assert (x + rest)[1..] == x[1..] + rest;
      forall k | 0 <= k < |x[1..]|
        ensures !MatchesHere(p, (x[1..] + rest)[k..])
      {
        assert (x[1..] + rest)[k..] == (x + rest)[k + 1..];
      }
      Skip(p, x[1..], rest);
    }
  }

  /** The two texts differ somewhere when q is read from its k-th character on. */
  ghost predicate Clash(p: string, q: string, k: nat) {
    exists i :: 0 <= i < |p| && k + i < |q| && p[i] != q[k + i]
  }

  /** The text p occurs inside q at its own start only. */
  ghost predicate NoInner(p: string, q: string) {
    forall k :: 0 <= k < |q| && (k > 0 || p != q) ==> Clash(p, q, k)
  }

  ghost predicate FirstSpace(p: string, sp: int) {
    0 <= sp < |p| - 1 && p[sp] == ' ' && p[sp + 1] != 'a' && forall i :: 0 <= i < sp ==> p[i] != ' '
  }

  /** The first space of p is followed by something other than the 'a' of " and ". */
  ghost predicate Spaced(p: string) {
    exists sp :: FirstSpace(p, sp)
  }

  lemma PatternIsSpaced(a: Action)
    ensures Spaced(Pattern(a))
  {
    var p, sp := Pattern(a), if a.Assigned? then 8 else 10;
    assert FirstSpace(p, sp);
  }

  lemma NotPrefix(p: string, s: string, i: nat)
    requires i < |p| && (i < |s| ==> p[i] != s[i])
    ensures !(p <= s)
  {
  }

  lemma PatternsDoNotNest(a: Action, b: Action)
    requires !a.Unrecognised? && !b.Unrecognised?
    ensures NoInner(Pattern(a), Pattern(b))
  {
    var p, q := Pattern(a), Pattern(b);
    forall k | 0 <= k < |q| && (k > 0 || p != q)
      ensures Clash(p, q, k)
    {
      var i := if p == ASSIGNED_TO && q == UNASSIGNED && k == 2 then 9 else 0;
      assert p[i] != q[k + i];
    }
  }

  lemma PatternsDoNotStartInAnd(a: Action)
    ensures NoInner(Pattern(a), " and ") && Pattern(a) != " and "
  {
    var p, q := Pattern(a), " and ";
    assert |p| != |q|;
    forall k | 0 <= k < |q|
      ensures Clash(p, q, k)
    {
      var i := if k == 1 && a.Assigned? then 1 else 0;
      assert p[i] != q[k + i];
    }
  }

  lemma ClashStopsMatch(p: string, q: string, tail: string, k: nat)
    requires k < |q| && Clash(p, q, k)
    ensures !MatchesHere(p, (q + tail)[k..])
  {
    var i :| 0 <= i < |p| && k + i < |q| && p[i] != q[k + i];
    var s := (q + tail)[k..];
    assert s[i] == q[k + i];
    NotPrefix(p, s, i);
  }

  /** No match starts inside a name. */
  lemma SkipName(p: string, x: string, rest: string)
    requires Spaced(p) && ' ' !in x && EndOfPhrase(rest)
    ensures FindAll(p, x + rest) == FindAll(p, rest)
  {
    var sp :| FirstSpace(p, sp);
    forall k | 0 <= k < |x|
      ensures !MatchesHere(p, (x + rest)[k..])
    {
      var s, n := (x + rest)[k..], |x| - k;
      assert forall i :: 0 <= i < n ==> s[i] == x[k + i];
      assert forall i :: n <= i < |s| ==> s[i] == rest[i - n];
      assert rest == [] || (rest[0] == " and "[0] && rest[1] == " and "[1]);
      var bad := if sp < n then sp else if n < sp || rest == [] then n else n + 1;
      NotPrefix(p, s, bad);
    }
    Skip(p, x, rest);
  }

  lemma WordRunStops(x: string, rest: string)
    requires EndOfPhrase(rest)
    ensures WordRun(x + rest) == WordRun(x)
  {
    if x == [] {
      assert x + rest == rest;
      assert rest != [] ==> rest[0] == " and "[0];
    } else {
      assert (x + rest)[1..] == x[1..] + rest;
      WordRunStops(x[1..], rest);
    }
  }

  /** A phrase adds its name to its own pattern, if a word character follows the @, and nothing to the other. */
  lemma FindInPhrase(p: string, q: string, u: string, rest: string)
    requires NoInner(p, q) && Spaced(p) && ' ' !in u && EndOfPhrase(rest)
    ensures FindAll(p, q + (u + rest)) ==
            (if p == q && WordRun(u) != [] then [WordRun(u)] else []) + FindAll(p, rest)
  {
    var s, w := q + (u + rest), WordRun(u);
    WordRunStops(u, rest);
    assert s[|q|..] == u + rest;
    if p == q && w != [] {
      assert s[|q| + |w|..] == u[|w|..] + rest;
      SkipName(p, u[|w|..], rest);
    } else {
      forall k | 0 <= k < |q|
        ensures !MatchesHere(p, s[k..])
      {
        if k == 0 && p == q {
          assert s[0..] == s;
        } else {
          ClashStopsMatch(p, q, u + rest, k);
        }
      }
      Skip(p, q, u + rest);
      SkipName(p, u, rest);
    }
  }

  lemma SkipAnd(a: Action, rest: string)
    ensures FindAll(Pattern(a), And(rest)) == FindAll(Pattern(a), rest)
  {
    var p, q := Pattern(a), " and ";
    PatternsDoNotStartInAnd(a);
    forall k | 0 <= k < |q|
      ensures !MatchesHere(p, (q + rest)[k..])
    {
      ClashStopsMatch(p, q, rest, k);
    }
    Skip(p, q, rest);
  }

  lemma LowerPhrase(c: Change, rest: string)
    ensures Lower(Phrase(c) + rest) == Pattern(c.action) + (Lower(c.username) + Lower(rest))
  {
    assert Lower(Pattern(c.action)) == Pattern(c.action);
  }

  lemma LowerAnd(rest: string)
    ensures Lower(And(rest)) == And(Lower(rest)) && EndOfPhrase(Lower(And(rest)))
  {
  }

  lemma FindInText(a: Action, c: Change, rest: string)
    requires !a.Unrecognised? && !c.action.Unrecognised? && ' ' !in c.username && EndOfPhrase(Lower(rest))
    ensures FindAll(Pattern(a), Lower(Phrase(c) + rest)) ==
            (if a == c.action && Seen(c.username) != [] then [Seen(c.username)] else []) +
            FindAll(Pattern(a), Lower(rest))
  {
    LowerPhrase(c, rest);
    PatternsDoNotNest(a, c.action);
    PatternIsSpaced(a);
    assert Pattern(a) == Pattern(c.action) <==> a == c.action by {
      assert |ASSIGNED_TO| != |UNASSIGNED|;
    }
    FindInPhrase(Pattern(a), Pattern(c.action), Lower(c.username), Lower(rest));
  }

  lemma {:induction false} FindInNote(cs: seq<Change>, a: Action)
    requires Renderable(cs) && !a.Unrecognised?
    ensures FindAll(Pattern(a), Lower(Render(cs))) == SeenOf(UsersWith(cs, a))
  {
    if cs != [] {
      var c, more := cs[0], cs[1..];
      assert Renderable(more) && c in cs;
      FindInNote(more, a);
      var rest := if more == [] then "" else And(Render(more));
      LowerAnd(Render(more));
      SkipAnd(a, Lower(Render(more)));
      FindInText(a, c, rest);
      assert Render(cs) == Phrase(c) + rest;
      SeenOfCons(c.username, UsersWith(more, a));
    }
  }

  lemma SeenOfCons(u: string, us: seq<string>)
    ensures SeenOf([u] + us) == (if Seen(u) == [] then [] else [Seen(u)]) + SeenOf(us)
    ensures SeenOf([] + us) == SeenOf(us)
  {
    assert ([u] + us)[1..] == us && [] + us == us;
  }

  /** On any rendered note the parser returns the assigned names as it sees them, then the unassigned ones. */
  lemma ParseOfRender(cs: seq<Change>)
    requires Renderable(cs)
    ensures Parse(Render(cs)) ==
            Tag(SeenOf(UsersWith(cs, Assigned)), Assigned) + Tag(SeenOf(UsersWith(cs, Unassigned)), Unassigned)
  {
    FindInNote(cs, Assigned);
    FindInNote(cs, Unassigned);
  }

  ghost predicate Plain(u: string) {
    u != [] && forall c :: c in u ==> IsWord(c) && !('A' <= c <= 'Z')
  }

  lemma WordRunOfWord(s: string)
    requires forall c :: c in s ==> IsWord(c)
    ensures WordRun(s) == s
  {
    if s != [] {
      assert s == [s[0]] + s[1..] && s[0] in s && forall c :: c in s[1..] ==> c in s;
      WordRunOfWord(s[1..]);
    }
  }

  lemma PlainIsSeen(u: string)
    requires Plain(u)
    ensures Seen(u) == u
  {
    var l := Lower(u);
    forall i | 0 <= i < |u|
      ensures l[i] == u[i]
    {
      assert u[i] in u;
    }
    assert l == u;
    WordRunOfWord(l);
  }

  lemma SeenIsPlain(u: string)
    requires Seen(u) == u && u != []
    ensures Plain(u)
  {
    var l := Lower(u);
    assert WordRun(l) == l;
    forall c | c in u
      ensures IsWord(c) && !('A' <= c <= 'Z')
    {
      var i :| 0 <= i < |u| && u[i] == c;
      assert l[i] == ToLower(u[i]);
    }
  }

  lemma SeenIffPlain(u: string)
    ensures Seen(u) == u && u != [] <==> Plain(u)
  {
    if Plain(u) {
      PlainIsSeen(u);
    }
    if Seen(u) == u && u != [] {
      SeenIsPlain(u);
    }
  }

  lemma {:induction false} SeenOfUnchangedIff(us: seq<string>)
    ensures |SeenOf(us)| <= |us|
    ensures SeenOf(us) == us <==> forall u :: u in us ==> Plain(u)
  {
    if us != [] {
      SeenOfUnchangedIff(us[1..]);
      SeenIffPlain(us[0]);
      assert us == [us[0]] + us[1..];
      if SeenOf(us) == us {
        assert Seen(us[0]) == us[0] != [];
        assert SeenOf(us)[1..] == us[1..];
      }
    }
  }

  lemma {:induction false} UserOfChange(cs: seq<Change>, a: Action, u: string)
    ensures u in UsersWith(cs, a) <==> Change(u, a) in cs
  {
    if cs != [] {
      UserOfChange(cs[1..], a, u);
    }
  }

  lemma {:induction false} UsersOfTagged(us: seq<string>, a: Action, rest: seq<Change>, b: Action)
    ensures UsersWith(Tag(us, a) + rest, b) == (if a == b then us else []) + UsersWith(rest, b)
  {
    if us == [] {
      assert Tag(us, a) + rest == rest;
    } else {
      var cs := Tag(us, a) + rest;
      assert cs[1..] == Tag(us[1..], a) + rest;
      UsersOfTagged(us[1..], a, rest, b);
    }
  }

  lemma UsersOfSplit(us: seq<string>, vs: seq<string>)
    ensures UsersWith(Tag(us, Assigned) + Tag(vs, Unassigned), Assigned) == us
    ensures UsersWith(Tag(us, Assigned) + Tag(vs, Unassigned), Unassigned) == vs
  {
    forall a: Action | a in {Assigned, Unassigned}
      ensures UsersWith(Tag(us, Assigned) + Tag(vs, Unassigned), a) == if a.Assigned? then us else vs
    {
      UsersOfTagged(us, Assigned, Tag(vs, Unassigned), a);
      assert Tag(vs, Unassigned) + [] == Tag(vs, Unassigned);
      UsersOfTagged(vs, Unassigned, [], a);
    }
  }

  /** The parser recovers the changes of a note exactly when every name is made of lower-case word characters. */
  lemma ParserRecoversIff(cs: seq<Change>)
    requires Renderable(cs)
    ensures Parse(Render(cs)) == Tag(UsersWith(cs, Assigned), Assigned) + Tag(UsersWith(cs, Unassigned), Unassigned)
            <==> forall c :: c in cs ==> Plain(c.username)
  {
    ParseOfRender(cs);
    var a, b := UsersWith(cs, Assigned), UsersWith(cs, Unassigned);
    SeenOfUnchangedIff(a);
    SeenOfUnchangedIff(b);
    forall c | c in cs
      ensures c.username in a || c.username in b
    {
      UserOfChange(cs, Assigned, c.username);
      UserOfChange(cs, Unassigned, c.username);
    }
    forall u | u in a || u in b
      ensures exists c :: c in cs && c.username == u
    {
      UserOfChange(cs, Assigned, u);
      UserOfChange(cs, Unassigned, u);
    }
    if Parse(Render(cs)) == Tag(a, Assigned) + Tag(b, Unassigned) {
      UsersOfSplit(SeenOf(a), SeenOf(b));
      UsersOfSplit(a, b);
    }
  }

  lemma SeenOfDotted()
    ensures Seen("a.b") == "a"
  {
    var l := Lower("a.b");
    assert l == "a.b" && l[1..] == ".b";
  }

  /** A dotted username, which GitLab allows, is cut at the dot and credited to somebody else. */
  lemma DottedNameIsCut()
    ensures Parse(Render([Change("a.b", Assigned)])) == [Change("a", Assigned)]
  {
    var cs := [Change("a.b", Assigned)];
    ParseOfRender(cs);
    SeenOfDotted();
    assert cs[1..] == [];
    SeenOfCons("a.b", []);
  }
}
