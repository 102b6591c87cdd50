/** The generated expressions against the topic matching of AMQP 0-9-1, section 3.1.3.3:
    words separated by dots, `*` one word, `#` any number of words. */
module AmqpTopics {
  import opened TopicPattern

  // ---------------------------------------------------------------- words

  function Dots(s: string): nat {
    if s == [] then 0 else (if s[0] == '.' then 1 else 0) + Dots(s[1..])
  }

  /** Words joined by dots. */
  function Join(ws: seq<string>): string {
    if ws == [] then "" else if |ws| == 1 then ws[0] else ws[0] + "." + Join(ws[1..])
  }

  predicate PlainWord(w: string) {
    w != "" && forall i :: 0 <= i < |w| ==> Plain(w[i])
  }

  /** A word of a pattern: a literal word, `*` or `#`. */
  predicate PatternWord(w: string) {
    PlainWord(w) || w == "*" || w == "#"
  }

  /** A word of a routing key: not empty, no dot, no line terminator. */
  ghost predicate KeyWord(w: string) {
    w != "" && DotFree(w) && AllWild(w)
  }

  ghost predicate IsPattern(ws: seq<string>) {
    forall w :: w in ws ==> PatternWord(w)
  }

  ghost predicate IsKey(ws: seq<string>) {
    forall w :: w in ws ==> KeyWord(w)
  }

  /** Matching by words, as the standard defines it. */
  ghost predicate AmqpMatch(pw: seq<string>, kw: seq<string>) {
    if pw == [] then kw == []
    else if pw[0] == "#" then exists j :: 0 <= j <= |kw| && AmqpMatch(pw[1..], kw[j..])
    else kw != [] && (pw[0] == "*" || pw[0] == kw[0]) && AmqpMatch(pw[1..], kw[1..])
  }

  /** The same with every `#` taking at least one word. */
  ghost predicate AmqpMatchPlus(pw: seq<string>, kw: seq<string>) {
    if pw == [] then kw == []
    else if pw[0] == "#" then exists j :: 1 <= j <= |kw| && AmqpMatchPlus(pw[1..], kw[j..])
    else kw != [] && (pw[0] == "*" || pw[0] == kw[0]) && AmqpMatchPlus(pw[1..], kw[1..])
  }

  lemma {:induction false} PlusIsMatch(pw: seq<string>, kw: seq<string>)
    requires AmqpMatchPlus(pw, kw)
    ensures AmqpMatch(pw, kw) && |pw| <= |kw|
    decreases |pw|
  {
    if pw != [] {
      if pw[0] == "#" {
        var j :| 1 <= j <= |kw| && AmqpMatchPlus(pw[1..], kw[j..]);
        PlusIsMatch(pw[1..], kw[j..]);
      } else {
        PlusIsMatch(pw[1..], kw[1..]);
      }
    }
  }

  lemma {:induction false} DotsAppend(a: string, b: string)
    ensures Dots(a + b) == Dots(a) + Dots(b)
  {
    if a == [] {
      assert a + b == b;
    } else {
      assert (a + b)[1..] == a[1..] + b;
      DotsAppend(a[1..], b);
    }
  }

  lemma {:induction false} DotFreeDots(s: string)
    ensures DotFree(s) <==> Dots(s) == 0
  {
    if s != [] {
      DotFreeDots(s[1..]);
      assert forall i :: 0 <= i < |s| ==> s[i] == (if i == 0 then s[0] else s[1..][i - 1]);
    }
  }

  ghost predicate DotFreeWords(ws: seq<string>) {
    forall w :: w in ws ==> w != "" && DotFree(w)
  }

  /** A list of n words, none empty or dotted, joins to a string with n - 1 dots. */
  lemma {:induction false} JoinDots(ws: seq<string>)
    requires DotFreeWords(ws)
    ensures Dots(Join(ws)) == if ws == [] then 0 else |ws| - 1
    ensures Join(ws) == "" <==> ws == []
  {
    if ws != [] {
      assert ws[0] in ws;
      DotFreeDots(ws[0]);
      if |ws| > 1 {
        assert forall w :: w in ws[1..] ==> w in ws;
        JoinDots(ws[1..]);
        DotsAppend(ws[0] + ".", Join(ws[1..]));
        DotsAppend(ws[0], ".");
        assert "."[1..] == "";
      }
    }
  }

  lemma PatternWordsDotFree(pw: seq<string>)
    requires IsPattern(pw)
    ensures DotFreeWords(pw)
  {
  }

  lemma {:induction false} JoinAppend(a: seq<string>, b: seq<string>)
    requires a != [] && b != []
    ensures Join(a + b) == Join(a) + "." + Join(b)
  {
    if |a| == 1 {
      assert (a + b)[1..] == b;
    } else {
      assert (a + b)[1..] == a[1..] + b;
      JoinAppend(a[1..], b);
    }
  }

  lemma {:induction false} JoinWild(ws: seq<string>)
    requires IsKey(ws)
    ensures AllWild(Join(ws))
  {
    if ws != [] {
      assert ws[0] in ws;
      if |ws| > 1 {
        JoinWild(ws[1..]);
      }
    }
  }

  // ---------------------------------------------------------------- matching word by word

  /** A literal prefix matches itself. */
  lemma {:induction false} LiteralPrefix(w: string, p: string, k: string)
    requires forall i :: 0 <= i < |w| ==> Plain(w[i])
    ensures PatternMatch(w + p, w + k) <==> PatternMatch(p, k)
  {
    if w == [] {
      assert w + p == p && w + k == k;
    } else {
      assert (w + p)[1..] == w[1..] + p && (w + k)[1..] == w[1..] + k;
      LiteralPrefix(w[1..], p, k);
    }
  }

  /** A literal prefix matches nothing else. */
  lemma {:induction false} LiteralOnly(w: string, p: string, k: string)
    requires forall i :: 0 <= i < |w| ==> Plain(w[i])
    requires PatternMatch(w + p, k)
    ensures |w| <= |k| && k[..|w|] == w && PatternMatch(p, k[|w|..])
  {
    if w == [] {
      assert w + p == p && k[0..] == k;
    } else {
      assert (w + p)[1..] == w[1..] + p;
      LiteralOnly(w[1..], p, k[1..]);
      assert k[1..][|w[1..]|..] == k[|w|..];
      assert k == [k[0]] + k[1..];
    }
  }

  lemma DotStep(p: string, k: string)
    requires PatternMatch(p, k)
    ensures PatternMatch("." + p, "." + k)
  {
  }

  /** A word of the pattern takes `taken`, then the rest takes what follows. */
  lemma WordStep(w: string, taken: string, p: string, k: string)
    requires PatternWord(w) && PatternMatch(p, k)
    requires PlainWord(w) ==> taken == w
    requires w == "*" ==> taken != "" && DotFree(taken)
    requires w == "#" ==> AllWild(taken)
    ensures PatternMatch(w + p, taken + k)
  {
    if PlainWord(w) {
      LiteralPrefix(w, p, k);
    } else {
      assert (w + p)[1..] == p;
      assert (taken + k)[..|taken|] == taken && (taken + k)[|taken|..] == k;
    }
  }

  /** How many key words the first pattern word takes. */
  lemma FirstWordTakes(pw: seq<string>, kw: seq<string>) returns (j: nat)
    requires pw != [] && AmqpMatchPlus(pw, kw)
    ensures 1 <= j <= |kw| && AmqpMatchPlus(pw[1..], kw[j..])
    ensures pw[0] != "#" ==> j == 1 && (pw[0] == "*" || pw[0] == kw[0])
  {
    if pw[0] == "#" {
      j :| 1 <= j <= |kw| && AmqpMatchPlus(pw[1..], kw[j..]);
    } else {
      j := 1;
    }
  }

  /** What a pattern word takes of a key: one word if it is not `#`. */
  ghost predicate Takes(w: string, taken: seq<string>) {
    && PatternWord(w) && IsKey(taken) && taken != []
    && (w != "#" ==> |taken| == 1 && (w == "*" || w == taken[0]))
  }

  lemma TakenFits(w: string, taken: seq<string>, p: string, k: string)
    requires Takes(w, taken) && PatternMatch(p, k)
    ensures PatternMatch(w + p, Join(taken) + k)
  {
    assert KeyWord(taken[0]);
    assert PlainWord(w) ==> Plain(w[0]);
    JoinWild(taken);
    WordStep(w, Join(taken), p, k);
  }

  lemma DotBetween(a: string, b: string)
    ensures a + "." + b == a + ("." + b)
  {
  }

  lemma WordAndDot(w: string, p: string, taken: seq<string>, rest: seq<string>)
    requires Takes(w, taken) && rest != [] && PatternMatch(p, Join(rest))
    ensures PatternMatch(w + "." + p, Join(taken + rest))
  {
    DotStep(p, Join(rest));
    TakenFits(w, taken, "." + p, "." + Join(rest));
    JoinAppend(taken, rest);
    DotBetween(w, p);
    DotBetween(Join(taken), Join(rest));
  }

  /** Every key that matches word by word with each `#` taking a word matches the generated expression. */
  lemma {:induction false} AmqpMatchIsFound(pw: seq<string>, kw: seq<string>)
    requires IsPattern(pw) && IsKey(kw) && AmqpMatchPlus(pw, kw)
    ensures PatternMatch(Join(pw), Join(kw))
    decreases |pw|
  {
    if pw != [] {
      var j := FirstWordTakes(pw, kw);
      assert PatternWord(pw[0]);
      assert kw == kw[..j] + kw[j..];
      if |pw| > 1 {
        AmqpMatchIsFound(pw[1..], kw[j..]);
        PlusIsMatch(pw[1..], kw[j..]);
        WordAndDot(pw[0], Join(pw[1..]), kw[..j], kw[j..]);
      } else {
        assert kw[j..] == [] && kw[..j] == kw;
        TakenFits(pw[0], kw, "", "");
        assert pw[0] + "" == pw[0] && Join(kw) + "" == Join(kw);
      }
    }
  }

  // ---------------------------------------------------------------- patterns without a hash

  ghost predicate NoHash(s: string) {
    forall i :: 0 <= i < |s| ==> s[i] != '#'
  }

  /** Without a hash, only the pattern's own dots can take the key's dots. */
  lemma {:induction false} DotsAreTaken(p: string, k: string)
    requires NoHash(p) && PatternMatch(p, k)
    ensures Dots(k) <= Dots(p)
    decreases |p|
  {
    if p != [] {
      if p[0] == '*' {
        var n :| 1 <= n <= |k| && DotFree(k[..n]) && PatternMatch(p[1..], k[n..]);
        DotsAreTaken(p[1..], k[n..]);
        assert k == k[..n] + k[n..];
        DotsAppend(k[..n], k[n..]);
        DotFreeDots(k[..n]);
      } else {
        DotsAreTaken(p[1..], k[1..]);
      }
    }
  }

  /** With equal numbers of dots, the part of the key a pattern word takes is one whole key word. */
  lemma WordIsTaken(w: string, p: string, k: string) returns (taken: string, rest: string)
    requires PatternWord(w) && w != "#" && NoHash(p)
    requires p == "" || p[0] == '.'
    requires PatternMatch(w + p, k) && Dots(k) == Dots(p)
    ensures k == taken + rest && PatternMatch(p, rest) && Dots(rest) == Dots(p)
    ensures taken != "" && DotFree(taken) && (w == "*" || taken == w)
    ensures p != "" ==>
      && rest != "" && rest[0] == '.'
      && PatternMatch(p[1..], rest[1..]) && Dots(rest[1..]) == Dots(p[1..])
    ensures p == "" ==> rest == ""
  {
    if w == "*" {
      assert (w + p)[1..] == p;
      var n :| 1 <= n <= |k| && DotFree(k[..n]) && PatternMatch(p, k[n..]);
      taken, rest := k[..n], k[n..];
    } else {
      LiteralOnly(w, p, k);
      taken, rest := k[..|w|], k[|w|..];
    }
    assert k == taken + rest;
    DotsAppend(taken, rest);
    DotFreeDots(taken);
    if p != "" {
      assert NoHash(p[1..]);
      DotsAreTaken(p[1..], rest[1..]);
    }
  }

  lemma {:induction false} PatternDots(pw: seq<string>)
    requires IsPattern(pw) && "#" !in pw
    ensures NoHash(Join(pw))
  {
    if pw != [] {
      assert PatternWord(pw[0]);
      if |pw| > 1 {
        PatternDots(pw[1..]);
      }
    }
  }

  function BeforeDot(s: string): string {
    if s == [] || s[0] == '.' then [] else [s[0]] + BeforeDot(s[1..])
  }

  lemma {:induction false} BeforeDotOf(a: string, x: string)
    requires DotFree(a) && (x != "" ==> x[0] == '.')
    ensures BeforeDot(a + x) == a
  {
    if a == "" {
      assert a + x == x;
    } else {
      assert (a + x)[1..] == a[1..] + x;
      BeforeDotOf(a[1..], x);
    }
  }

  /** A string is cut before its first dot in one way only. */
  lemma CutIsUnique(a: string, x: string, b: string, y: string)
    requires a + x == b + y && DotFree(a) && DotFree(b)
    requires (x != "" ==> x[0] == '.') && (y != "" ==> y[0] == '.')
    ensures a == b && x == y
  {
    BeforeDotOf(a, x);
    BeforeDotOf(b, y);
    assert x == (a + x)[|a|..] && y == (b + y)[|b|..];
  }

  /** The first word of a key is what stands before its first dot. */
  lemma FirstWord(kw: seq<string>, taken: string, rest: string)
    requires IsKey(kw) && kw != [] && Join(kw) == taken + rest && DotFree(taken)
    requires rest != "" ==> rest[0] == '.'
    ensures kw[0] == taken
    ensures rest == "" ==> kw[1..] == []
    ensures rest != "" ==> kw[1..] != [] && Join(kw[1..]) == rest[1..]
  {
    assert KeyWord(kw[0]);
    var tail := if |kw| == 1 then "" else "." + Join(kw[1..]);
    assert Join(kw) == kw[0] + tail;
    CutIsUnique(kw[0], tail, taken, rest);
    assert |kw| > 1 ==> tail[1..] == Join(kw[1..]);
  }

  /** The words of a string: none for the empty string, else what stands between its dots. */
  function Words(s: string): seq<string> {
    if s == "" then [] else Cut(s)
  }

  function Cut(s: string): (ws: seq<string>)
    ensures ws != []
  {
    if s == [] then [""]
    else
      var rest := Cut(s[1..]);
      if s[0] == '.' then [""] + rest else [[s[0]] + rest[0]] + rest[1..]
  }

  lemma JoinLonger(c: char, ws: seq<string>)
    requires ws != []
    ensures Join([[c] + ws[0]] + ws[1..]) == [c] + Join(ws)
  {
    assert ([[c] + ws[0]] + ws[1..])[1..] == ws[1..];
  }

  lemma JoinEmptyFirst(ws: seq<string>)
    requires ws != []
    ensures Join([""] + ws) == "." + Join(ws)
  {
  }

  lemma {:induction false} CutJoins(s: string)
    ensures Join(Cut(s)) == s
  {
    if s != [] {
      CutJoins(s[1..]);
      if s[0] == '.' { JoinEmptyFirst(Cut(s[1..])); } else { JoinLonger(s[0], Cut(s[1..])); }
    }
  }

  lemma {:induction false} CutPrefix(w: string, x: string)
    requires DotFree(w) && (x == "" || x[0] == '.')
    ensures Cut(w + x) == if x == "" then [w] else [w] + Cut(x[1..])
  {
    if w == "" {
      assert w + x == x;
    } else {
      assert (w + x)[1..] == w[1..] + x && (w + x)[0] == w[0];
      CutPrefix(w[1..], x);
      assert [w[0]] + w[1..] == w;
    }
  }

  lemma {:induction false} CutOfWords(ws: seq<string>)
    requires DotFreeWords(ws) && ws != []
    ensures Cut(Join(ws)) == ws
  {
    var x := if |ws| == 1 then "" else "." + Join(ws[1..]);
    assert ws[0] in ws && Join(ws) == ws[0] + x;
    CutPrefix(ws[0], x);
    if |ws| > 1 {
      assert x[1..] == Join(ws[1..]);
      assert forall w :: w in ws[1..] ==> w in ws;
      CutOfWords(ws[1..]);
    }
  }

  /** Strings and word lists say the same: joining the words of a string restores it, and a list of
      words that are not empty is the words of its joining. */
  lemma WordsAndJoin(s: string, ws: seq<string>)
    ensures Join(Words(s)) == s
    ensures DotFreeWords(ws) ==> Words(Join(ws)) == ws
  {
    CutJoins(s);
    if DotFreeWords(ws) {
      JoinDots(ws);
      if ws != [] { CutOfWords(ws); }
    }
  }

  /** For patterns without `#`, the generated expression together with an equal number of dots is the
      standard's word-by-word match. */
  lemma HashFreeIsAmqp(pw: seq<string>, kw: seq<string>)
    requires IsPattern(pw) && IsKey(kw) && "#" !in pw
    ensures AmqpMatch(pw, kw) <==> PatternMatch(Join(pw), Join(kw)) && Dots(Join(pw)) == Dots(Join(kw))
    decreases |pw|
  {
    PatternWordsDotFree(pw);
    JoinDots(pw);
    JoinDots(kw);
    if AmqpMatch(pw, kw) {
      HashFreePlus(pw, kw);
      AmqpMatchIsFound(pw, kw);
    }
    if PatternMatch(Join(pw), Join(kw)) && Dots(Join(pw)) == Dots(Join(kw)) {
      FoundIsAmqp(pw, kw);
    }
  }

  lemma {:induction false} HashFreePlus(pw: seq<string>, kw: seq<string>)
    requires AmqpMatch(pw, kw) && "#" !in pw
    ensures AmqpMatchPlus(pw, kw) && |pw| == |kw|
  {
    if pw != [] {
      HashFreePlus(pw[1..], kw[1..]);
    }
  }

  lemma {:induction false} FoundIsAmqp(pw: seq<string>, kw: seq<string>)
    requires IsPattern(pw) && IsKey(kw) && "#" !in pw
    requires PatternMatch(Join(pw), Join(kw)) && Dots(Join(pw)) == Dots(Join(kw))
    ensures AmqpMatch(pw, kw)
    decreases |pw|
  {
    JoinDots(kw);
    if pw != [] {
      var p := if |pw| == 1 then "" else "." + Join(pw[1..]);
      assert PatternWord(pw[0]) && pw[0] != "#";
      assert Join(pw) == pw[0] + p;
      PatternDots(pw[1..]);
      DotFreeDots(pw[0]);
      DotsAppend(pw[0], p);
      var taken, rest := WordIsTaken(pw[0], p, Join(kw));
      FirstWord(kw, taken, rest);
      if |pw| > 1 {
        assert p[1..] == Join(pw[1..]);
        FoundIsAmqp(pw[1..], kw[1..]);
      }
    }
  }

  // ---------------------------------------------------------------- where the two disagree

  /** The expression of a dotted pattern matches a key with another character in place of the dot,
      and `#` next to a dot cannot stand for no word. */
  lemma Disagreements()
    ensures PatternMatch("a.b", "axb") && !AmqpMatch(["a", "b"], ["axb"])
    ensures !PatternMatch("a.#", "a") && AmqpMatch(["a", "#"], ["a"])
  {
    assert "a.b"[1..] == ".b" && "axb"[1..] == "xb" && ".b"[1..] == "b" && "xb"[1..] == "b" && "b"[1..] == "";
    assert "a.#"[1..] == ".#" && "a"[1..] == "";
    assert ["a", "#"][1..] == ["#"] && ["a"][1..] == [] && ["#"][1..] == [];
    var none: seq<string> := [];
    assert none[0..] == none && AmqpMatch([], none);
  }

  /** The fewest characters a pattern can match. */
  function MinLength(p: string): nat {
    if p == [] then 0 else (if p[0] == '#' then 0 else 1) + MinLength(p[1..])
  }

  lemma {:induction false} MatchNeedsLength(p: string, k: string)
    requires PatternMatch(p, k)
    ensures |k| >= MinLength(p)
    decreases |p|
  {
    if p != [] {
      if p[0] == '*' {
        var n :| 1 <= n <= |k| && DotFree(k[..n]) && PatternMatch(p[1..], k[n..]);
        MatchNeedsLength(p[1..], k[n..]);
      } else if p[0] == '#' {
        var n :| 0 <= n <= |k| && AllWild(k[..n]) && PatternMatch(p[1..], k[n..]);
        MatchNeedsLength(p[1..], k[n..]);
      } else {
        MatchNeedsLength(p[1..], k[1..]);
      }
    }
  }

  lemma {:induction false} MinLengthAppend(a: string, b: string)
    ensures MinLength(a + b) == MinLength(a) + MinLength(b)
  {
    if a == [] {
      assert a + b == b;
    } else {
      assert (a + b)[1..] == a[1..] + b;
      MinLengthAppend(a[1..], b);
    }
  }

  lemma {:induction false} MinLengthPlain(w: string)
    requires forall i :: 0 <= i < |w| ==> w[i] != '#'
    ensures MinLength(w) == |w|
  {
    if w != [] {
      MinLengthPlain(w[1..]);
    }
  }

  /** The pattern's words with every `#` dropped and every `*` filled in: a key that matches with
      every `#` standing for no word. */
  function Dropped(pw: seq<string>): seq<string> {
    if pw == [] then []
    else (if pw[0] == "#" then [] else if pw[0] == "*" then ["x"] else [pw[0]]) + Dropped(pw[1..])
  }

  lemma {:induction false} DroppedMatches(pw: seq<string>)
    requires IsPattern(pw)
    ensures IsKey(Dropped(pw)) && AmqpMatch(pw, Dropped(pw))
  {
    if pw != [] {
      assert PatternWord(pw[0]);
      DroppedMatches(pw[1..]);
      var kw := Dropped(pw);
      if pw[0] == "#" {
        assert kw[0..] == Dropped(pw[1..]);
      } else {
        assert kw[1..] == Dropped(pw[1..]);
      }
    }
  }

  lemma {:induction false} DroppedIsShorter(pw: seq<string>)
    requires IsPattern(pw)
    ensures |Dropped(pw)| <= |pw|
    ensures "#" in pw ==> |Dropped(pw)| < |pw|
    ensures MinLength(Join(pw)) + (if Dropped(pw) == [] then 0 else |Dropped(pw)| - 1)
         == |Join(Dropped(pw))| + (if pw == [] then 0 else |pw| - 1)
  {
    if pw != [] {
      var kw := Dropped(pw);
      var rest := Dropped(pw[1..]);
      assert PatternWord(pw[0]);
      DroppedIsShorter(pw[1..]);
      if pw[0] == "#" {
        assert kw == rest;
        assert MinLength("#") == 0 by { assert "#"[1..] == ""; }
      } else {
        assert kw[1..] == rest;
        MinLengthPlain(pw[0]);
      }
      if |pw| > 1 {
        MinLengthAppend(pw[0] + ".", Join(pw[1..]));
        MinLengthAppend(pw[0], ".");
        assert "."[1..] == "";
      }
    }
  }

  /** A pattern with a `#` and another word misses the key that drops every `#`. */
  lemma HashMisses(pw: seq<string>)
    requires IsPattern(pw) && "#" in pw && |pw| >= 2
    ensures IsKey(Dropped(pw)) && AmqpMatch(pw, Dropped(pw)) && !PatternMatch(Join(pw), Join(Dropped(pw)))
  {
    DroppedMatches(pw);
    DroppedIsShorter(pw);
    if PatternMatch(Join(pw), Join(Dropped(pw))) {
      MatchNeedsLength(Join(pw), Join(Dropped(pw)));
      JoinDots(Dropped(pw));
    }
  }

  /** A pattern's characters with every `#` dropped and every dot and `*` turned into a letter: one
      word the expression matches. */
  function Flattened(p: string): string {
    if p == [] then []
    else (if p[0] == '#' then [] else if p[0] == '.' || p[0] == '*' then ['x'] else [p[0]]) + Flattened(p[1..])
  }

  lemma {:induction false} FlattenedMatches(p: string)
    requires InAlphabet(p)
    ensures |Flattened(p)| == MinLength(p) && DotFree(Flattened(p)) && AllWild(Flattened(p))
    ensures PatternMatch(p, Flattened(p))
  {
    if p != [] {
      var k := Flattened(p);
      assert PatternChar(p[0]);
      FlattenedMatches(p[1..]);
      if p[0] == '#' {
        assert k[..0] == [] && k[0..] == Flattened(p[1..]);
      } else {
        assert k[1..] == Flattened(p[1..]);
        if p[0] == '*' { assert k[..1] == ['x']; }
      }
    }
  }

  lemma {:induction false} JoinAlphabet(pw: seq<string>)
    requires IsPattern(pw)
    ensures InAlphabet(Join(pw))
  {
    if pw != [] {
      assert PatternWord(pw[0]);
      if |pw| > 1 {
        JoinAlphabet(pw[1..]);
      }
    }
  }

  /** How many words of a pattern take exactly one word of a key. */
  function Singles(pw: seq<string>): nat {
    if pw == [] then 0 else (if pw[0] == "#" then 0 else 1) + Singles(pw[1..])
  }

  ghost predicate AllWildcards(pw: seq<string>) {
    forall w :: w in pw ==> w == "*" || w == "#"
  }

  /** A matched key has a word for each of them, and holds the literal ones. */
  lemma {:induction false} MatchNeedsWords(pw: seq<string>, kw: seq<string>)
    requires AmqpMatch(pw, kw)
    ensures |kw| >= Singles(pw)
    ensures forall w :: w in pw && w != "*" && w != "#" ==> w in kw
    decreases |pw|
  {
    if pw != [] {
      assert forall w :: w in pw <==> w == pw[0] || w in pw[1..];
      if pw[0] == "#" {
        var j :| 0 <= j <= |kw| && AmqpMatch(pw[1..], kw[j..]);
        MatchNeedsWords(pw[1..], kw[j..]);
      } else {
        MatchNeedsWords(pw[1..], kw[1..]);
      }
    }
  }

  /** Wildcards alone match any key with enough words, if a `#` is there to take the others. */
  lemma {:induction false} WildcardsMatch(pw: seq<string>, kw: seq<string>)
    requires AllWildcards(pw) && |kw| >= Singles(pw) && ("#" in pw || |kw| == Singles(pw))
    ensures AmqpMatch(pw, kw)
    decreases |pw|
  {
    if pw != [] {
      assert pw[0] in pw && forall w :: w in pw <==> w == pw[0] || w in pw[1..];
      if pw[0] == "#" {
        var j := |kw| - Singles(pw[1..]);
        WildcardsMatch(pw[1..], kw[j..]);
      } else {
        WildcardsMatch(pw[1..], kw[1..]);
      }
    }
  }

  lemma {:induction false} WithoutHashAllAreSingle(pw: seq<string>)
    requires "#" !in pw
    ensures Singles(pw) == |pw|
  {
    if pw != [] { WithoutHashAllAreSingle(pw[1..]); }
  }

  /** The expression needs a character for each single word, and one for each dot between words. */
  lemma {:induction false} ExpressionNeedsLength(pw: seq<string>, w: string)
    requires IsPattern(pw) && w in pw
    ensures MinLength(Join(pw)) >= Singles(pw)
    ensures MinLength(Join(pw)) >= (if w == "#" then 0 else |w|) + |pw| - 1
  {
    assert PatternWord(pw[0]);
    MinLengthPlain(if pw[0] == "#" then "" else pw[0]);
    assert MinLength("#") == 0 by { assert "#"[1..] == ""; }
    if |pw| > 1 {
      var rest := pw[1..];
      ExpressionNeedsLength(rest, if w in rest then w else rest[0]);
      MinLengthAppend(pw[0] + ".", Join(rest));
      MinLengthAppend(pw[0], ".");
      assert "."[1..] == "";
    }
  }

  /** A pattern with another word that is literal, or with two single words, also matches a key of one
      word that the standard refuses. */
  lemma DotOvermatches(pw: seq<string>)
    requires IsPattern(pw) && |pw| >= 2 && !(AllWildcards(pw) && Singles(pw) <= 1)
    ensures var kw := [Flattened(Join(pw))];
      IsKey(kw) && PatternMatch(Join(pw), Join(kw)) && !AmqpMatch(pw, kw)
  {
    var kw := [Flattened(Join(pw))];
    JoinAlphabet(pw);
    FlattenedMatches(Join(pw));
    ExpressionNeedsLength(pw, pw[0]);
    if AmqpMatch(pw, kw) {
      MatchNeedsWords(pw, kw);
      var w :| w in pw && w != "*" && w != "#";
      ExpressionNeedsLength(pw, w);
    }
  }

  lemma HashAloneMatchesAll(kw: seq<string>)
    requires IsKey(kw)
    ensures AmqpMatch(["#"], kw) && PatternMatch("#", Join(kw))
  {
    JoinWild(kw);
    var k := Join(kw);
    assert ["#"][1..] == [] && kw[|kw|..] == [];
    assert "#"[1..] == "" && k[..|k|] == k && k[|k|..] == "";
  }

  /** The expression agrees with the standard on every key exactly for patterns of at most one word. */
  lemma AgreesExactlyWithoutDots(pw: seq<string>)
    requires IsPattern(pw)
    ensures (forall kw :: IsKey(kw) ==> (AmqpMatch(pw, kw) <==> PatternMatch(Join(pw), Join(kw)))) <==> |pw| <= 1
  {
    if |pw| >= 2 {
      if "#" in pw {
        HashMisses(pw);
      } else {
        WithoutHashAllAreSingle(pw);
        DotOvermatches(pw);
      }
    } else {
      forall kw | IsKey(kw) ensures AmqpMatch(pw, kw) <==> PatternMatch(Join(pw), Join(kw)) {
        if "#" in pw {
          assert pw == ["#"];
          HashAloneMatchesAll(kw);
        } else {
          HashFreeIsAmqp(pw, kw);
          PatternWordsDotFree(pw);
          JoinDots(pw);
          PatternDots(pw);
          if PatternMatch(Join(pw), Join(kw)) { DotsAreTaken(Join(pw), Join(kw)); }
        }
      }
    }
  }

  /** The expression accepts no key the standard refuses exactly for patterns of at most one word and for
      patterns of wildcards with at most one `*`. */
  lemma AcceptsNothingMoreExactly(pw: seq<string>)
    requires IsPattern(pw)
    ensures (forall kw :: IsKey(kw) && PatternMatch(Join(pw), Join(kw)) ==> AmqpMatch(pw, kw))
       <==> |pw| <= 1 || (AllWildcards(pw) && Singles(pw) <= 1)
  {
    if |pw| <= 1 {
      AgreesExactlyWithoutDots(pw);
    } else if AllWildcards(pw) && Singles(pw) <= 1 {
      if "#" !in pw { WithoutHashAllAreSingle(pw); }
      forall kw | IsKey(kw) && PatternMatch(Join(pw), Join(kw)) ensures AmqpMatch(pw, kw) {
        MatchNeedsLength(Join(pw), Join(kw));
        ExpressionNeedsLength(pw, pw[0]);
        JoinDots(kw);
        WildcardsMatch(pw, kw);
      }
    } else {
      DotOvermatches(pw);
    }
  }

  /** The expression misses no key the standard matches exactly when no `#` stands beside another word. */
  lemma MissesNothingExactly(pw: seq<string>)
    requires IsPattern(pw)
    ensures (forall kw :: IsKey(kw) && AmqpMatch(pw, kw) ==> PatternMatch(Join(pw), Join(kw)))
       <==> "#" !in pw || |pw| == 1
  {
    if "#" in pw && |pw| >= 2 {
      HashMisses(pw);
    } else {
      forall kw | IsKey(kw) && AmqpMatch(pw, kw) ensures PatternMatch(Join(pw), Join(kw)) {
        KeyIsNotMissed(pw, kw);
      }
    }
  }

  lemma KeyIsNotMissed(pw: seq<string>, kw: seq<string>)
    requires IsPattern(pw) && ("#" !in pw || |pw| == 1)
    requires IsKey(kw) && AmqpMatch(pw, kw)
    ensures PatternMatch(Join(pw), Join(kw))
  {
    if "#" in pw {
      assert pw == ["#"];
      HashAloneMatchesAll(kw);
    } else {
      HashFreeIsAmqp(pw, kw);
    }
  }
}
