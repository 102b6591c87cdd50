/** The topic-pattern compiler: a pattern is rewritten in place into a regular expression,
    which is then parsed and matched. */
module TopicPattern {
  import opened Messages

  const STAR_REGEX := "[^\\.]+"
  const HASH_REGEX := ".*"

  /** Characters that stand for themselves in patterns and in regular expressions: letters, digits, dashes
      and all others but the wildcards, the dot, the operators of regular expressions and line terminators. */
  predicate Plain(c: char) {
    c !in "*#.^$\\+?()[]{}|\n\r"
  }

  predicate PatternChar(c: char) {
    Plain(c) || c == '.' || c == '*' || c == '#'
  }

  /** Patterns whose regular expression stays in the modelled fragment. */
  ghost predicate InAlphabet(p: string) {
    forall i :: 0 <= i < |p| ==> PatternChar(p[i])
  }

  // ---------------------------------------------------------------- the two rewrite loops

  /** `std::string::find(c, pos)`; None is npos. */
  function FindFrom(s: string, c: char, pos: nat): (r: Option<nat>)
    requires pos <= |s|
    ensures r.None? ==> forall i :: pos <= i < |s| ==> s[i] != c
    ensures r.Some? ==> pos <= r.value < |s| && s[r.value] == c && forall i :: pos <= i < r.value ==> s[i] != c
    decreases |s| - pos
  {
    if pos == |s| then None else if s[pos] == c then Some(pos) else FindFrom(s, c, pos + 1)
  }

  /** Every c replaced by w, character by character. */
  function Subst(s: string, c: char, w: string): string {
    if s == [] then [] else (if s[0] == c then w else [s[0]]) + Subst(s[1..], c, w)
  }

  /** The regular expression of one pattern character. */
  function Rewritten(c: char): string {
    if c == '*' then STAR_REGEX else if c == '#' then HASH_REGEX else [c]
  }

  /** The regular expression of a pattern, character by character. */
  function Body(p: string): string {
    if p == [] then [] else Rewritten(p[0]) + Body(p[1..])
  }

  lemma {:induction false} SubstAppend(a: string, b: string, c: char, w: string)
    ensures Subst(a + b, c, w) == Subst(a, c, w) + Subst(b, c, w)
  {
    if a == [] {
      assert a + b == b;
    } else {
      assert (a + b)[1..] == a[1..] + b;
      SubstAppend(a[1..], b, c, w);
    }
  }

  lemma {:induction false} SubstAbsent(s: string, c: char, w: string)
    requires forall i :: 0 <= i < |s| ==> s[i] != c
    ensures Subst(s, c, w) == s
  {
    if s != [] {
      SubstAbsent(s[1..], c, w);
    }
  }

  /** One pass of find, replace, skip. */
  lemma PassStep(s: string, c: char, w: string, pos: nat, found: nat)
    requires pos <= found < |s| && s[found] == c && forall i :: pos <= i < found ==> s[i] != c
    ensures var t := s[..found] + w + s[found + 1..];
      && found + |w| <= |t|
      && t[..found + |w|] == s[..found] + w
      && t[..found + |w|] + Subst(t[found + |w|..], c, w) == s[..pos] + Subst(s[pos..], c, w)
  {
    var t := s[..found] + w + s[found + 1..];
    assert t[found + |w|..] == s[found + 1..];
    assert s[pos..] == s[pos..found] + s[found..];
    SubstAppend(s[pos..found], s[found..], c, w);
    SubstAbsent(s[pos..found], c, w);
    assert s[found..][1..] == s[found + 1..];
    assert s[..found] == s[..pos] + s[pos..found];
  }

  /** Stars first, then hashes: the star's expression holds no hash, so the second pass only
      touches what was a hash in the pattern. */
  lemma {:induction false} TwoPassesAreOne(p: string)
    ensures Subst(Subst(p, '*', STAR_REGEX), '#', HASH_REGEX) == Body(p)
  {
    if p != [] {
      var head := if p[0] == '*' then STAR_REGEX else [p[0]];
      SubstAppend(head, Subst(p[1..], '*', STAR_REGEX), '#', HASH_REGEX);
      TwoPassesAreOne(p[1..]);
      if p[0] == '#' {
        assert [p[0]][1..] == [];
      } else {
        SubstAbsent(head, '#', HASH_REGEX);
      }
    }
  }

  function Hashes(p: string): nat {
    if p == [] then 0 else (if p[0] == '#' then 1 else 0) + Hashes(p[1..])
  }

  lemma {:induction false} HashFirstLength(p: string)
    ensures |Subst(Subst(p, '#', HASH_REGEX), '*', STAR_REGEX)| == |Body(p)| + 5 * Hashes(p)
    ensures Hashes(p) == 0 <==> forall i :: 0 <= i < |p| ==> p[i] != '#'
  {
    if p != [] {
      var head := if p[0] == '#' then HASH_REGEX else [p[0]];
      SubstAppend(head, Subst(p[1..], '#', HASH_REGEX), '*', STAR_REGEX);
      HashFirstLength(p[1..]);
      if p[0] == '#' {
        assert HASH_REGEX[1..] == "*" && "*"[1..] == "";
      } else {
        assert head[1..] == [];
      }
      assert forall i :: 0 <= i < |p| ==> p[i] == (if i == 0 then p[0] else p[1..][i - 1]);
    }
  }

  /** The other order is right only for patterns without a hash, because the hash's expression
      holds a star. */
  lemma OrderMatters(p: string)
    ensures Subst(Subst(p, '#', HASH_REGEX), '*', STAR_REGEX) == Body(p)
       <==> forall i :: 0 <= i < |p| ==> p[i] != '#'
  {
    HashFirstLength(p);
    if forall i :: 0 <= i < |p| ==> p[i] != '#' {
      SubstAbsent(p, '#', HASH_REGEX);
      TwoPassesAreOne(p);
      StarsLeaveNoHash(p);
      SubstAbsent(Subst(p, '*', STAR_REGEX), '#', HASH_REGEX);
    }
  }

  lemma {:induction false} StarsLeaveNoHash(p: string)
    requires forall i :: 0 <= i < |p| ==> p[i] != '#'
    ensures forall i :: 0 <= i < |Subst(p, '*', STAR_REGEX)| ==> Subst(p, '*', STAR_REGEX)[i] != '#'
  {
    if p != [] {
      StarsLeaveNoHash(p[1..]);
    }
  }

  /** The first loop of `MatchRoutingKey`: find, replace, skip what was inserted. */
  method ReplaceStars(pattern: string) returns (regexPattern: string)
    ensures regexPattern == Subst(pattern, '*', STAR_REGEX)
  {
    regexPattern := pattern;
    var pos: nat := 0;
    var found := FindFrom(regexPattern, '*', pos);
    while found.Some?
      invariant pos <= |regexPattern| && found == FindFrom(regexPattern, '*', pos)
      invariant regexPattern[..pos] + Subst(regexPattern[pos..], '*', STAR_REGEX) == Subst(pattern, '*', STAR_REGEX)
      decreases |regexPattern| - pos
    {
      PassStep(regexPattern, '*', STAR_REGEX, pos, found.value);
      regexPattern := regexPattern[..found.value] + STAR_REGEX + regexPattern[found.value + 1..];
      pos := found.value + 6;
      found := FindFrom(regexPattern, '*', pos);
    }
    SubstAbsent(regexPattern[pos..], '*', STAR_REGEX);
    assert regexPattern == regexPattern[..pos] + regexPattern[pos..];
  }

  /** The second loop, on the result of the first. */
  method ReplaceHashes(starred: string) returns (regexPattern: string)
    ensures regexPattern == Subst(starred, '#', HASH_REGEX)
  {
    regexPattern := starred;
    var pos: nat := 0;
    var found := FindFrom(regexPattern, '#', pos);
    while found.Some?
      invariant pos <= |regexPattern| && found == FindFrom(regexPattern, '#', pos)
      invariant regexPattern[..pos] + Subst(regexPattern[pos..], '#', HASH_REGEX) == Subst(starred, '#', HASH_REGEX)
      decreases |regexPattern| - pos
    {
      PassStep(regexPattern, '#', HASH_REGEX, pos, found.value);
      regexPattern := regexPattern[..found.value] + HASH_REGEX + regexPattern[found.value + 1..];
      pos := found.value + 2;
      found := FindFrom(regexPattern, '#', pos);
    }
    SubstAbsent(regexPattern[pos..], '#', HASH_REGEX);
    assert regexPattern == regexPattern[..pos] + regexPattern[pos..];
  }

  method CompilePattern(pattern: string) returns (r: string)
    ensures r == "^" + Body(pattern) + "$"
  {
    var starred := ReplaceStars(pattern);
    var regexPattern := ReplaceHashes(starred);
    TwoPassesAreOne(pattern);
    r := "^" + regexPattern + "$";
  }

  // ---------------------------------------------------------------- the regular-expression fragment

  datatype Atom = Lit(c: char) | AnyChar | NotDot
  datatype Piece = One(atom: Atom) | Star(atom: Atom) | Plus(atom: Atom)

  /** A literal, `.` or `[^\.]`, and what follows it. */
  function ParseAtom(s: string): (r: Option<(Atom, string)>)
    ensures r.Some? ==> |r.value.1| < |s|
  {
    if s == [] then None
    else if s[0] == '.' then Some((AnyChar, s[1..]))
    else if Plain(s[0]) then Some((Lit(s[0]), s[1..]))
    else if |s| >= 5 && s[..5] == "[^\\.]" then Some((NotDot, s[5..]))
    else None
  }

  /** Atoms, each with an optional `*` or `+`. */
  function Parse(s: string): Option<seq<Piece>>
    decreases |s|
  {
    if s == [] then Some([])
    else
      match ParseAtom(s)
      case None => None
      case Some((a, rest)) =>
        var quantified := rest != [] && (rest[0] == '*' || rest[0] == '+');
        var piece := if !quantified then One(a) else if rest[0] == '*' then Star(a) else Plus(a);
        match Parse(if quantified then rest[1..] else rest)
        case None => None
        case Some(ps) => Some([piece] + ps)
  }

  /** An expression between the two anchors. */
  function ParseAnchored(s: string): Option<seq<Piece>> {
    if |s| >= 2 && s[0] == '^' && s[|s| - 1] == '$' then Parse(s[1..|s| - 1]) else None
  }

  /** `.` does not match a line terminator. */
  predicate Wild(c: char) {
    c != '\n' && c != '\r'
  }

  predicate AtomMatches(a: Atom, c: char) {
    match a
    case Lit(x) => c == x
    case AnyChar => Wild(c)
    case NotDot => c != '.'
  }

  /** Backtracking match of a whole string. */
  predicate Match(ps: seq<Piece>, s: string)
    decreases |s|, |ps|
  {
    if ps == [] then s == []
    else
      var taken := s != [] && AtomMatches(ps[0].atom, s[0]);
      match ps[0]
      case One(_) => taken && Match(ps[1..], s[1..])
      case Star(a) => Match(ps[1..], s) || (taken && Match(ps, s[1..]))
      case Plus(a) => taken && Match([Star(a)] + ps[1..], s[1..])
  }

  // ---------------------------------------------------------------- what a pattern means

  function PieceOf(c: char): Piece {
    if c == '*' then Plus(NotDot)
    else if c == '#' then Star(AnyChar)
    else if c == '.' then One(AnyChar)
    else One(Lit(c))
  }

  function Pieces(p: string): seq<Piece> {
    if p == [] then [] else [PieceOf(p[0])] + Pieces(p[1..])
  }

  /** The expression of one pattern character is one piece, whatever pattern follows it. */
  lemma HeadParses(c: char, rest: string)
    requires PatternChar(c) && (rest != [] ==> rest[0] != '*' && rest[0] != '+') && Parse(rest).Some?
    ensures Parse(Rewritten(c) + rest) == Some([PieceOf(c)] + Parse(rest).value)
  {
    if c == '*' {
      StarParses(rest);
    } else if c == '#' {
      var s := HASH_REGEX + rest;
      assert s[1..] == "*" + rest && s[1..][1..] == rest;
    } else {
      assert ([c] + rest)[1..] == rest;
    }
  }

  lemma StarParses(rest: string)
    requires Parse(rest).Some?
    ensures Parse(STAR_REGEX + rest) == Some([Plus(NotDot)] + Parse(rest).value)
  {
    var s := STAR_REGEX + rest;
    assert s[..5] == "[^\\.]" && s[5..] == "+" + rest && s[5..][1..] == rest;
    assert |s| >= 6 && s[0] == '[' && !Plain('[');
    assert ParseAtom(s) == Some((NotDot, "+" + rest));
    assert ("+" + rest)[0] == '+' && ("+" + rest)[1..] == rest;
  }

  /** The generated expression parses, to one piece per pattern character. */
  lemma {:induction false} BodyParses(p: string)
    requires InAlphabet(p)
    ensures Parse(Body(p)) == Some(Pieces(p)) && |Pieces(p)| == |p|
    ensures Body(p) != [] ==> Body(p)[0] != '*' && Body(p)[0] != '+'
  {
    if p != [] {
      BodyParses(p[1..]);
      assert PatternChar(p[0]);
      HeadParses(p[0], Body(p[1..]));
    }
  }

  ghost predicate DotFree(s: string) {
    forall i :: 0 <= i < |s| ==> s[i] != '.'
  }

  ghost predicate AllWild(s: string) {
    forall i :: 0 <= i < |s| ==> Wild(s[i])
  }

  /** A pattern read directly: `.` any one character, `*` a non-empty run without dots, `#` any run. */
  ghost predicate PatternMatch(p: string, key: string)
    decreases |p|
  {
    if p == [] then key == []
    else if p[0] == '*' then exists k :: 1 <= k <= |key| && DotFree(key[..k]) && PatternMatch(p[1..], key[k..])
    else if p[0] == '#' then exists k :: 0 <= k <= |key| && AllWild(key[..k]) && PatternMatch(p[1..], key[k..])
    else key != [] && (if p[0] == '.' then Wild(key[0]) else key[0] == p[0]) && PatternMatch(p[1..], key[1..])
  }

  /** What a pattern of one character means, in terms of the key alone. */
  lemma OneCharacterMeans(c: char, key: string)
    ensures PatternMatch([], key) <==> key == []
    ensures PatternMatch("*", key) <==> key != [] && '.' !in key
    ensures PatternMatch("#", key) <==> '\n' !in key && '\r' !in key
    ensures PatternMatch(".", key) <==> |key| == 1 && key[0] != '\n' && key[0] != '\r'
    ensures c != '*' && c != '#' && c != '.' ==> (PatternMatch([c], key) <==> key == [c])
  {
    StarMeans(key);
    HashMeans(key);
    DotMeans(key);
    if c != '*' && c != '#' && c != '.' { LiteralMeans(c, key); }
  }

  lemma StarMeans(key: string)
    ensures PatternMatch("*", key) <==> key != [] && '.' !in key
  {
    CharacterMeans('*', key);
  }

  lemma HashMeans(key: string)
    ensures PatternMatch("#", key) <==> '\n' !in key && '\r' !in key
  {
    CharacterMeans('#', key);
  }

  lemma DotMeans(key: string)
    ensures PatternMatch(".", key) <==> |key| == 1 && key[0] != '\n' && key[0] != '\r'
  {
    CharacterMeans('.', key);
  }

  lemma LiteralMeans(c: char, key: string)
    requires c != '*' && c != '#' && c != '.'
    ensures PatternMatch([c], key) <==> key == [c]
  {
    CharacterMeans(c, key);
    assert |key| == 1 ==> key == [key[0]];
  }

  lemma CharacterMeans(c: char, key: string)
    ensures PatternMatch([c], key) <==> TakesChars(c, key)
  {
    assert [c][1..] == [];
    if PatternMatch([c], key) {
      var k := HeadTakes([c], key);
      assert k == |key| && key[..k] == key;
    }
    if TakesChars(c, key) {
      assert key[..|key|] == key && key[|key|..] == [];
      HeadGives([c], key, |key|);
    }
  }

  /** What a longer pattern means: a key matches p + q exactly if it splits into keys that match p and q. */
  lemma PatternsConcatenate(p: string, q: string, key: string)
    ensures PatternMatch(p + q, key) <==>
      exists i :: 0 <= i <= |key| && PatternMatch(p, key[..i]) && PatternMatch(q, key[i..])
  {
    if PatternMatch(p + q, key) {
      var i := KeySplits(p, q, key);
    }
    if i :| 0 <= i <= |key| && PatternMatch(p, key[..i]) && PatternMatch(q, key[i..]) {
      KeysJoin(p, q, key, i);
    }
  }

  lemma {:induction false} KeySplits(p: string, q: string, key: string) returns (i: nat)
    requires PatternMatch(p + q, key)
    ensures i <= |key| && PatternMatch(p, key[..i]) && PatternMatch(q, key[i..])
    decreases |p|
  {
    if p == [] {
      i := 0;
      assert p + q == q && key[0..] == key && key[..0] == [];
    } else {
      assert (p + q)[1..] == p[1..] + q;
      var k := HeadTakes(p + q, key);
      var rest := KeySplits(p[1..], q, key[k..]);
      i := k + rest;
      SplitExtends(p, q, key, k, rest);
    }
  }

  lemma SplitExtends(p: string, q: string, key: string, k: nat, rest: nat)
    requires p != [] && k <= |key| && TakesChars(p[0], key[..k]) && rest <= |key[k..]|
    requires PatternMatch(p[1..], key[k..][..rest]) && PatternMatch(q, key[k..][rest..])
    ensures PatternMatch(p, key[..k + rest]) && PatternMatch(q, key[k + rest..])
  {
    SplitAgain(key, k, k + rest);
    HeadGives(p, key[..k + rest], k);
  }

  lemma {:induction false} KeysJoin(p: string, q: string, key: string, i: nat)
    requires i <= |key| && PatternMatch(p, key[..i]) && PatternMatch(q, key[i..])
    ensures PatternMatch(p + q, key)
    decreases |p|
  {
    if p == [] {
      assert p + q == q && key[0..] == key;
    } else {
      assert (p + q)[1..] == p[1..] + q;
      var k := HeadTakes(p, key[..i]);
      SplitAgain(key, k, i);
      KeysJoin(p[1..], q, key[k..], i - k);
      HeadGives(p + q, key, k);
    }
  }

  lemma SplitAgain(key: string, k: nat, i: nat)
    requires k <= i <= |key|
    ensures key[..i][..k] == key[..k] && key[..i][k..] == key[k..][..i - k] && key[i..] == key[k..][i - k..]
  {
  }

  /** The first character of a pattern takes these characters of a key. */
  ghost predicate TakesChars(c: char, taken: string) {
    if c == '*' then taken != [] && DotFree(taken)
    else if c == '#' then AllWild(taken)
    else |taken| == 1 && if c == '.' then Wild(taken[0]) else taken[0] == c
  }

  lemma HeadTakes(p: string, key: string) returns (k: nat)
    requires p != [] && PatternMatch(p, key)
    ensures k <= |key| && TakesChars(p[0], key[..k]) && PatternMatch(p[1..], key[k..])
  {
    if p[0] == '*' {
      k :| 1 <= k <= |key| && DotFree(key[..k]) && PatternMatch(p[1..], key[k..]);
    } else if p[0] == '#' {
      k :| 0 <= k <= |key| && AllWild(key[..k]) && PatternMatch(p[1..], key[k..]);
    } else {
      k := 1;
    }
  }

  lemma HeadGives(p: string, key: string, k: nat)
    requires p != [] && k <= |key| && TakesChars(p[0], key[..k]) && PatternMatch(p[1..], key[k..])
    ensures PatternMatch(p, key)
  {
  }

  ghost predicate Matches(a: Atom, s: string, k: nat)
    requires k <= |s|
  {
    forall i :: 0 <= i < k ==> AtomMatches(a, s[i])
  }

  /** A starred atom takes some run of matching characters. */
  lemma {:induction false} StarTakesRun(a: Atom, rest: seq<Piece>, s: string)
    ensures Match([Star(a)] + rest, s) <==> exists k :: 0 <= k <= |s| && Matches(a, s, k) && Match(rest, s[k..])
    decreases |s|
  {
    var ps := [Star(a)] + rest;
    assert ps[1..] == rest && s[0..] == s;
    if s != [] && AtomMatches(a, s[0]) {
      StarTakesRun(a, rest, s[1..]);
      if Match(ps, s[1..]) {
        var k :| 0 <= k <= |s[1..]| && Matches(a, s[1..], k) && Match(rest, s[1..][k..]);
        assert s[1..][k..] == s[k + 1..];
        assert Matches(a, s, k + 1);
      }
      forall k | 1 <= k <= |s| && Matches(a, s, k) && Match(rest, s[k..]) ensures Match(ps, s[1..]) {
        assert s[1..][k - 1..] == s[k..];
        assert Matches(a, s[1..], k - 1);
      }
    }
    assert Matches(a, s, 0);
  }

  lemma PlusTakesRun(a: Atom, rest: seq<Piece>, s: string)
    ensures Match([Plus(a)] + rest, s) <==> exists k :: 1 <= k <= |s| && Matches(a, s, k) && Match(rest, s[k..])
  {
    var ps := [Plus(a)] + rest;
    assert ps[1..] == rest;
    if s != [] && AtomMatches(a, s[0]) {
      StarTakesRun(a, rest, s[1..]);
      if Match(ps, s) {
        var k :| 0 <= k <= |s[1..]| && Matches(a, s[1..], k) && Match(rest, s[1..][k..]);
        assert s[1..][k..] == s[k + 1..];
        assert Matches(a, s, k + 1);
      }
      forall k | 1 <= k <= |s| && Matches(a, s, k) && Match(rest, s[k..]) ensures Match(ps, s) {
        assert s[1..][k - 1..] == s[k..];
        assert Matches(a, s[1..], k - 1);
      }
    }
  }

  /** The pieces of a pattern match exactly what the pattern means. */
  lemma {:induction false} MatchMeans(p: string, key: string)
    ensures Match(Pieces(p), key) <==> PatternMatch(p, key)
    decreases |p|
  {
    if p != [] {
      var rest := Pieces(p[1..]);
      assert Pieces(p)[1..] == rest;
      if p[0] == '*' {
        PlusTakesRun(NotDot, rest, key);
        if Match(Pieces(p), key) {
          var k :| 1 <= k <= |key| && Matches(NotDot, key, k) && Match(rest, key[k..]);
          MatchMeans(p[1..], key[k..]);
          assert DotFree(key[..k]);
        }
        if PatternMatch(p, key) {
          var k :| 1 <= k <= |key| && DotFree(key[..k]) && PatternMatch(p[1..], key[k..]);
          MatchMeans(p[1..], key[k..]);
          assert forall i :: 0 <= i < k ==> key[i] == key[..k][i];
          assert Matches(NotDot, key, k);
        }
      } else if p[0] == '#' {
        StarTakesRun(AnyChar, rest, key);
        if Match(Pieces(p), key) {
          var k :| 0 <= k <= |key| && Matches(AnyChar, key, k) && Match(rest, key[k..]);
          MatchMeans(p[1..], key[k..]);
          assert AllWild(key[..k]);
        }
        if PatternMatch(p, key) {
          var k :| 0 <= k <= |key| && AllWild(key[..k]) && PatternMatch(p[1..], key[k..]);
          MatchMeans(p[1..], key[k..]);
          assert forall i :: 0 <= i < k ==> key[i] == key[..k][i];
          assert Matches(AnyChar, key, k);
        }
      } else if key != [] {
        MatchMeans(p[1..], key[1..]);
      }
    }
  }

  /** `MatchRoutingKey`: compile, parse, match. */
  method MatchRoutingKey(pattern: string, routingKey: string) returns (matched: bool)
    requires InAlphabet(pattern)
    ensures matched <==> PatternMatch(pattern, routingKey)
  {
    var regexPattern := CompilePattern(pattern);
    BodyParses(pattern);
    assert regexPattern[1..|regexPattern| - 1] == Body(pattern);
    var reg := ParseAnchored(regexPattern);
    matched := Match(reg.value, routingKey);
    MatchMeans(pattern, routingKey);
  }
}
