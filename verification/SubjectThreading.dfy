/** Subject normalisation and thread assignment for incoming mail. */
module SubjectThreading {
  import opened Options

  // -------------------------------------------------------------- characters

  /** White space as a regular expression's \s sees it. */
  predicate IsRegexSpace(c: char)
  {
    c == '\t' || c == '\n' || c as int == 0x0C || c == '\r' || c == ' '
  }

  /** White space as Unicode defines it, which is what trimming removes. */
  predicate IsSpace(c: char)
  {
    var n := c as int;
    || 0x09 <= n <= 0x0D || n == 0x20 || n == 0x85 || n == 0xA0 || n == 0x1680 || 0x2000 <= n <= 0x200A
    || n == 0x2028 || n == 0x2029 || n == 0x202F || n == 0x205F || n == 0x3000
  }

  function Lower(c: char): char
  {
    if 'A' <= c <= 'Z' then c - 'A' + 'a' else c
  }

  ghost predicate Blank(s: string)
  {
    forall i :: 0 <= i < |s| ==> IsSpace(s[i])
  }

  ghost predicate RegexBlank(s: string)
  {
    forall i :: 0 <= i < |s| ==> IsRegexSpace(s[i])
  }

  // ------------------------------------------------------- trim and strip

  function TrimLeft(s: string): string
  {
    if s != [] && IsSpace(s[0]) then TrimLeft(s[1..]) else s
  }

  function TrimRight(s: string): string
  {
    if s != [] && IsSpace(s[|s| - 1]) then TrimRight(s[..|s| - 1]) else s
  }

  function TrimSpace(s: string): string
  {
    TrimRight(TrimLeft(s))
  }

  /** The greedy \s* of the pattern. */
  function DropSpaces(s: string): string
  {
    if s != [] && IsRegexSpace(s[0]) then DropSpaces(s[1..]) else s
  }

  /** What is left after \s*:\s*, if that matches. */
  function AfterColon(s: string): Option<string>
  {
    var t := DropSpaces(s);
    if t != [] && t[0] == ':' then Some(DropSpaces(t[1..])) else None
  }

  predicate StartsRe(s: string)
  {
    |s| >= 2 && Lower(s[0]) == 'r' && Lower(s[1]) == 'e'
  }

  predicate StartsFw(s: string)
  {
    |s| >= 2 && Lower(s[0]) == 'f' && Lower(s[1]) == 'w'
  }

  predicate StartsFwd(s: string)
  {
    |s| >= 3 && StartsFw(s) && Lower(s[2]) == 'd'
  }

  /** The match of ^(re|fwd|fw)\s*:\s* and what it leaves: the alternatives are tried in order. */
  function Strip(s: string): Option<string>
  {
    if StartsRe(s) && AfterColon(s[2..]).Some? then AfterColon(s[2..])
    else if StartsFwd(s) && AfterColon(s[3..]).Some? then AfterColon(s[3..])
    else if StartsFw(s) then AfterColon(s[2..])
    else None
  }

  lemma {:induction false} DropSpacesShortens(s: string)
    ensures |DropSpaces(s)| <= |s|
  {
    if s != [] && IsRegexSpace(s[0]) {
      DropSpacesShortens(s[1..]);
    }
  }

  lemma {:induction false} TrimLeftShortens(s: string)
    ensures |TrimLeft(s)| <= |s|
  {
    if s != [] && IsSpace(s[0]) {
      TrimLeftShortens(s[1..]);
    }
  }

  lemma {:induction false} TrimRightShortens(s: string)
    ensures |TrimRight(s)| <= |s|
  {
    if s != [] && IsSpace(s[|s| - 1]) {
      TrimRightShortens(s[..|s| - 1]);
    }
  }

  lemma AfterColonShortens(s: string)
    ensures AfterColon(s).Some? ==> |AfterColon(s).value| < |s|
  {
    DropSpacesShortens(s);
    if DropSpaces(s) != [] {
      DropSpacesShortens(DropSpaces(s)[1..]);
    }
  }

  /** Each round strips a nonempty prefix: at least two letters and a colon. */
  lemma StripShortens(s: string)
    ensures Strip(s).Some? ==> |Strip(s).value| + 3 <= |s|
  {
    if |s| >= 2 {
      AfterColonShortens(s[2..]);
    }
    if |s| >= 3 {
      AfterColonShortens(s[3..]);
    }
  }

  /** The fixed point of trimming and stripping. */
  function Normalized(s: string): string
    decreases |s|
  {
    var t := TrimSpace(s);
    TrimLeftShortens(s);
    TrimRightShortens(TrimLeft(s));
    StripShortens(t);
    if Strip(t).Some? then Normalized(Strip(t).value) else t
  }

  method NormalizeSubject(subject: string) returns (r: string)
    ensures r == Normalized(subject)
  {
    r := TrimSpace(subject);
    ghost var pending := subject;
    while Strip(r).Some?
      invariant r == TrimSpace(pending) && Normalized(pending) == Normalized(subject)
      decreases |r|
    {
      StripShortens(r);
      r := Strip(r).value;
      pending := r;
      TrimLeftShortens(r);
      TrimRightShortens(TrimLeft(r));
      r := TrimSpace(r);
    }
  }

  // ------------------------------------------------------------ white space

  lemma {:induction false} TrimLeftBlank(w: string, s: string)
    requires Blank(w)
    ensures TrimLeft(w + s) == TrimLeft(s)
  {
    if w == [] {
      assert w + s == s;
    } else {
      assert (w + s)[1..] == w[1..] + s;
      TrimLeftBlank(w[1..], s);
    }
  }

  lemma {:induction false} TrimRightBlank(s: string, w: string)
    requires Blank(w)
    ensures TrimRight(s + w) == TrimRight(s)
  {
    if w == [] {
      assert s + w == s;
    } else {
      assert (s + w)[..|s + w| - 1] == s + w[..|w| - 1];
      TrimRightBlank(s, w[..|w| - 1]);
    }
  }

  /** Trimming splits off blank ends. */
  lemma {:induction false} TrimLeftSplits(s: string) returns (w: string)
    ensures Blank(w) && s == w + TrimLeft(s)
    ensures TrimLeft(s) == [] || !IsSpace(TrimLeft(s)[0])
  {
    if s != [] && IsSpace(s[0]) {
      var v := TrimLeftSplits(s[1..]);
      w := [s[0]] + v;
    } else {
      w := [];
    }
  }

  lemma {:induction false} TrimRightSplits(s: string) returns (w: string)
    ensures Blank(w) && s == TrimRight(s) + w
    ensures TrimRight(s) == [] || !IsSpace(TrimRight(s)[|TrimRight(s)| - 1])
  {
    if s != [] && IsSpace(s[|s| - 1]) {
      var v := TrimRightSplits(s[..|s| - 1]);
      w := v + [s[|s| - 1]];
    } else {
      w := [];
    }
  }

  lemma {:induction false} DropSpacesSplits(s: string) returns (w: string)
    ensures RegexBlank(w) && Blank(w) && s == w + DropSpaces(s)
  {
    if s != [] && IsRegexSpace(s[0]) {
      var v := DropSpacesSplits(s[1..]);
      w := [s[0]] + v;
    } else {
      w := [];
    }
  }

  lemma {:induction false} DropSpacesBlank(w: string, s: string)
    requires RegexBlank(w)
    ensures DropSpaces(w + s) == DropSpaces(s)
  {
    if w == [] {
      assert w + s == s;
    } else {
      assert (w + s)[1..] == w[1..] + s;
      DropSpacesBlank(w[1..], s);
    }
  }

  lemma {:induction false} TrimLeftKeepsTail(s: string, w: string)
    requires Blank(w)
    ensures TrimLeft(s + w) == if TrimLeft(s) == [] then [] else TrimLeft(s) + w
  {
    if s == [] {
      assert s + w == w + [];
      TrimLeftBlank(w, []);
    } else if IsSpace(s[0]) {
      assert (s + w)[1..] == s[1..] + w;
      TrimLeftKeepsTail(s[1..], w);
    }
  }

  /** White space around a subject is irrelevant. */
  lemma NormalizedIgnoresBlank(v: string, s: string, w: string)
    requires Blank(v) && Blank(w)
    ensures Normalized(v + s) == Normalized(s) && Normalized(s + w) == Normalized(s)
  {
    TrimLeftBlank(v, s);
    TrimLeftKeepsTail(s, w);
    TrimRightBlank(TrimLeft(s), w);
    assert TrimRight([]) == [];
  }

  // ---------------------------------------------------------------- results

  /** Trimmed, and without a reply or forward prefix. */
  ghost predicate Normal(s: string)
  {
    TrimSpace(s) == s && Strip(s).None?
  }

  lemma TrimSpaceTwice(s: string)
    ensures TrimSpace(TrimSpace(s)) == TrimSpace(s)
  {
    var v := TrimLeftSplits(s);
    var w := TrimRightSplits(TrimLeft(s));
    var t := TrimSpace(s);
    if t != [] {
      assert t[0] == TrimLeft(s)[0];
      assert TrimLeft(t) == t;
    }
  }

  /** The result carries no prefix and no outer white space. */
  lemma {:induction false} NormalizedIsNormal(s: string)
    ensures Normal(Normalized(s))
    decreases |s|
  {
    var t := TrimSpace(s);
    TrimLeftShortens(s);
    TrimRightShortens(TrimLeft(s));
    StripShortens(t);
    if Strip(t).Some? {
      NormalizedIsNormal(Strip(t).value);
    } else {
      TrimSpaceTwice(s);
    }
  }

  /** Normalising twice is normalising once; a normal subject is left alone. */
  lemma NormalizedIdempotent(s: string)
    ensures Normalized(Normalized(s)) == Normalized(s)
    ensures Normal(s) ==> Normalized(s) == s
  {
    NormalizedIsNormal(s);
  }

  // --------------------------------------------------------- prefix stacks

  /** A reply or forward mark up to its colon, or a stretch of white space. */
  datatype Part = Mark(word: string, gap: string) | Gap(text: string)

  /** "re", "fw" or "fwd", in any mixture of cases. */
  predicate IsMarkWord(word: string)
  {
    || (|word| == 2 && word[0] in "rR" && word[1] in "eE")
    || (|word| == 2 && word[0] in "fF" && word[1] in "wW")
    || (|word| == 3 && word[0] in "fF" && word[1] in "wW" && word[2] in "dD")
  }

  lemma MarkWordStarts(word: string)
    ensures IsMarkWord(word) <==>
      (|word| == 2 && (StartsRe(word) || StartsFw(word))) || (|word| == 3 && StartsFwd(word))
  {
  }

  ghost predicate WellFormed(p: Part)
  {
    match p
    case Gap(text) => Blank(text)
    case Mark(word, gap) => RegexBlank(gap) && IsMarkWord(word)
  }

  ghost predicate AllWellFormed(parts: seq<Part>)
  {
    forall i :: 0 <= i < |parts| ==> WellFormed(parts[i])
  }

  function Text(p: Part): string
  {
    match p
    case Gap(text) => text
    case Mark(word, gap) => word + gap + ":"
  }

  function Texts(parts: seq<Part>): string
  {
    if parts == [] then [] else Text(parts[0]) + Texts(parts[1..])
  }

  lemma ColonAfterGap(gap: string, rest: string)
    requires RegexBlank(gap)
    ensures AfterColon(gap + ":" + rest) == Some(DropSpaces(rest))
  {
    assert gap + ":" + rest == gap + (":" + rest);
    DropSpacesBlank(gap, ":" + rest);
    assert (":" + rest)[1..] == rest;
  }

  lemma NoLetterAfterGap(gap: string, rest: string)
    requires RegexBlank(gap)
    ensures var t := gap + ":" + rest; t != [] && Lower(t[0]) != 'd'
  {
    if gap != [] {
      assert IsRegexSpace(gap[0]);
    }
  }

  lemma StripTwo(s: string, left: string)
    requires |s| >= 3 && (StartsRe(s) || StartsFw(s)) && Lower(s[2]) != 'd' && AfterColon(s[2..]) == Some(left)
    ensures Strip(s) == Some(left)
  {
  }

  lemma StripThree(s: string, left: string)
    requires StartsFwd(s) && AfterColon(s[3..]) == Some(left)
    ensures Strip(s) == Some(left)
  {
  }

  lemma StripMark(word: string, gap: string, rest: string)
    requires WellFormed(Mark(word, gap))
    ensures Strip(word + gap + ":" + rest) == Some(DropSpaces(rest))
  {
    hide Strip, AfterColon, IsMarkWord, IsRegexSpace;
    var tail := gap + ":" + rest;
    var s := word + gap + ":" + rest;
    assert s == word + tail;
    ColonAfterGap(gap, rest);
    NoLetterAfterGap(gap, rest);
    MarkWordStarts(word);
    assert s[|word|..] == tail;
    if |word| == 2 {
      assert s[2] == tail[0];
      StripTwo(s, DropSpaces(rest));
    } else {
      StripThree(s, DropSpaces(rest));
    }
  }

  lemma TrimMark(word: string, gap: string, rest: string)
    requires WellFormed(Mark(word, gap))
    ensures TrimSpace(word + gap + ":" + rest) == word + gap + ":" + TrimRight(rest)
  {
    var head := word + gap + ":";
    assert head + rest == word + (gap + ":" + rest);
    assert !IsSpace((head + rest)[0]);
    var w := TrimRightSplits(rest);
    assert head + rest == (head + TrimRight(rest)) + w;
    TrimRightBlank(head + TrimRight(rest), w);
    var t := head + TrimRight(rest);
    assert !IsSpace(t[|t| - 1]);
  }

  /** One prefix in front changes nothing. */
  lemma MarkIsIgnored(word: string, gap: string, rest: string)
    requires WellFormed(Mark(word, gap))
    ensures Normalized(word + gap + ":" + rest) == Normalized(rest)
  {
    TrimMark(word, gap, rest);
    StripMark(word, gap, TrimRight(rest));
    var v := DropSpacesSplits(TrimRight(rest));
    NormalizedIgnoresBlank(v, DropSpaces(TrimRight(rest)), []);
    var w := TrimRightSplits(rest);
    NormalizedIgnoresBlank([], TrimRight(rest), w);
  }

  /** Any stack of prefixes and white space in front leaves the result unchanged. */
  lemma {:induction false} StackIsIgnored(parts: seq<Part>, s: string)
    requires AllWellFormed(parts)
    ensures Normalized(Texts(parts) + s) == Normalized(s)
  {
    if parts == [] {
      assert Texts(parts) + s == s;
    } else {
      var rest := Texts(parts[1..]) + s;
      assert Texts(parts) + s == Text(parts[0]) + rest;
      assert WellFormed(parts[0]);
      match parts[0] {
        case Gap(text) => NormalizedIgnoresBlank(text, rest, []);
        case Mark(word, gap) => MarkIsIgnored(word, gap, rest);
      }
      StackIsIgnored(parts[1..], s);
    }
  }

  /** No result begins with a prefix, or with white space, or ends with white space. */
  lemma NoPrefixLeft(s: string, word: string, gap: string, rest: string)
    requires IsMarkWord(word) && RegexBlank(gap)
    ensures Normalized(s) != word + gap + ":" + rest
    ensures var n := Normalized(s); n != [] ==> !IsSpace(n[0]) && !IsSpace(n[|n| - 1])
  {
    NormalizedIsNormal(s);
    StripMark(word, gap, rest);
    OuterSpaceGone(Normalized(s));
  }

  lemma OuterSpaceGone(n: string)
    requires TrimSpace(n) == n
    ensures n != [] ==> !IsSpace(n[0]) && !IsSpace(n[|n| - 1])
  {
    TrimmedStart(n);
    var v := TrimLeftSplits(n);
    var w := TrimRightSplits(TrimLeft(n));
  }

  lemma MarkAndSpace(word: string, gap: string, v: string, topic: string)
    requires IsMarkWord(word) && RegexBlank(gap) && Blank(v)
    ensures Normalized((word + gap + ":" + v) + topic) == Normalized(topic)
  {
    MarkIsIgnored(word, gap, v + topic);
    NormalizedIgnoresBlank(v, topic, "");
    assert (word + gap + ":" + v) + topic == word + gap + ":" + (v + topic);
  }

  /** For example. */
  lemma UsualPrefixesAreIgnored(topic: string)
    ensures Normalized("Re: " + topic) == Normalized("Fwd: " + topic) == Normalized("FW :" + topic) == Normalized(topic)
  {
    hide Blank, RegexBlank;
    NoSpace();
    MarkAndSpace("Re", "", " ", topic);
    MarkAndSpace("Fwd", "", " ", topic);
    MarkAndSpace("FW", " ", "", topic);
    assert "Re" + "" + ":" + " " == "Re: ";
    assert "Fwd" + "" + ":" + " " == "Fwd: ";
    assert "FW" + " " + ":" + "" == "FW :";
  }

  lemma NoSpace()
    ensures Blank("") && RegexBlank("") && Blank(" ") && RegexBlank(" ")
  {
  }

  lemma AfterColonSplits(t: string) returns (gap: string, w: string)
    requires AfterColon(t).Some?
    ensures RegexBlank(gap) && RegexBlank(w) && Blank(w) && t == gap + ":" + (w + AfterColon(t).value)
  {
    gap := DropSpacesSplits(t);
    w := DropSpacesSplits(DropSpaces(t)[1..]);
    assert DropSpaces(t) == ":" + DropSpaces(t)[1..];
  }

  lemma WordSplits(s: string, n: nat, gap: string, rest: string) returns (p: Part)
    requires n <= |s| && RegexBlank(gap) && s[n..] == gap + ":" + rest
    requires (n == 2 && (StartsRe(s) || StartsFw(s))) || (n == 3 && StartsFwd(s))
    ensures p.Mark? && WellFormed(p) && s == Text(p) + rest
  {
    p := Mark(s[..n], gap);
    MarkWordStarts(s[..n]);
    assert s == s[..n] + (gap + ":" + rest);
  }

  /** A match is a mark, and the white space the pattern takes after it. */
  lemma StripSplits(s: string) returns (p: Part, w: string)
    requires Strip(s).Some?
    ensures p.Mark? && WellFormed(p) && RegexBlank(w) && Blank(w) && s == Text(p) + (w + Strip(s).value)
  {
    var n := if StartsRe(s) && AfterColon(s[2..]).Some? then 2
             else if StartsFwd(s) && AfterColon(s[3..]).Some? then 3 else 2;
    var gap;
    gap, w := AfterColonSplits(s[n..]);
    p := WordSplits(s, n, gap, w + Strip(s).value);
  }

  lemma TextsCons(p: Part, parts: seq<Part>)
    ensures Texts([p] + parts) == Text(p) + Texts(parts)
    ensures WellFormed(p) && AllWellFormed(parts) ==> AllWellFormed([p] + parts)
  {
    assert ([p] + parts)[1..] == parts;
  }

  lemma GapText(v: string)
    ensures Text(Gap(v)) == v
  {
  }

  lemma Assemble(v: string, mark: string, gap: string, more: string, n: string, x: string, u: string)
    ensures v + ((mark + (gap + (more + n + x))) + u) == (v + (mark + (gap + more))) + n + (x + u)
  {
  }

  lemma BlankConcat(x: string, u: string)
    requires Blank(x) && Blank(u)
    ensures Blank(x + u)
  {
  }

  /** What one round trims and strips, as two gaps and a mark in front of what is left. */
  lemma RoundTexts(v: string, p: Part, gap: string, more: seq<Part>) returns (parts: seq<Part>)
    requires Blank(v) && Blank(gap) && WellFormed(p) && AllWellFormed(more)
    ensures AllWellFormed(parts)
    ensures Texts(parts) == v + (Text(p) + (gap + Texts(more)))
  {
    hide Text;
    parts := [Gap(gap)] + more;
    TextsCons(Gap(gap), more);
    GapText(gap);
    TextsCons(p, parts);
    parts := [p] + parts;
    TextsCons(Gap(v), parts);
    GapText(v);
    parts := [Gap(v)] + parts;
  }

  lemma TrimSplits(s: string) returns (v: string, u: string)
    ensures Blank(v) && Blank(u) && s == v + (TrimSpace(s) + u)
  {
    v := TrimLeftSplits(s);
    u := TrimRightSplits(TrimLeft(s));
  }

  lemma GapAlone(v: string, t: string, u: string) returns (parts: seq<Part>)
    requires Blank(v)
    ensures AllWellFormed(parts) && v + (t + u) == Texts(parts) + t + u
  {
    parts := [Gap(v)] + [];
    TextsCons(Gap(v), []);
    GapText(v);
    assert v + [] == v;
  }

  lemma {:induction false} NormalizedSplits(s: string) returns (parts: seq<Part>, w: string)
    ensures AllWellFormed(parts)
    ensures Blank(w) && s == Texts(parts) + Normalized(s) + w
    decreases |s|
  {
    hide Strip, Text, TrimSpace, WellFormed, AllWellFormed, Blank;
    var v, u := TrimSplits(s);
    var t := TrimSpace(s);
    assert Normalized(s) == if Strip(t).Some? then Normalized(Strip(t).value) else t;
    if Strip(t).Some? {
      StripShortens(t);
      var p, gap := StripSplits(t);
      var more, x := NormalizedSplits(Strip(t).value);
      parts := RoundTexts(v, p, gap, more);
      w := x + u;
      BlankConcat(x, u);
      Assemble(v, Text(p), gap, Texts(more), Normalized(s), x, u);
    } else {
      parts := GapAlone(v, t, u);
      w := u;
    }
  }

  /** The normaliser in one sentence: its result is the one normal subject from which the input is
      made by putting a stack of prefixes and white space in front and white space behind. */
  lemma NormalizedExactly(s: string, n: string)
    ensures n == Normalized(s) <==>
      Normal(n) && exists parts: seq<Part>, w: string ::
        AllWellFormed(parts) && Blank(w) && s == Texts(parts) + n + w
  {
    if n == Normalized(s) {
      NormalizedIsNormal(s);
      var parts, w := NormalizedSplits(s);
    }
    if Normal(n) {
      forall parts: seq<Part>, w: string |
        AllWellFormed(parts) && Blank(w) && s == Texts(parts) + n + w
        ensures n == Normalized(s)
      {
        assert s == Texts(parts) + (n + w);
        StackIsIgnored(parts, n + w);
        NormalizedIgnoresBlank([], n, w);
        NormalizedIdempotent(n);
      }
    }
  }

  // ------------------------------------------------------ thread assignment

  /** A stored email; ids stand for message ids, threads and accounts. */
  datatype Email = Email(account: nat, messageId: nat, thread: Option<nat>, receivedAt: int, subject: string)

  /** What the parser hands over; an absent In-Reply-To is None. */
  datatype Parsed = Parsed(inReplyTo: Option<nat>, references: seq<nat>, subject: string, receivedAt: int)

  const SEVEN_DAYS: int := 604_800

  /** The thread of the first stored email of an account with a given message id and a thread. */
  function ByMessageId(store: seq<Email>, account: nat, id: nat): Option<nat>
  {
    if store == [] then None
    else if store[0].account == account && store[0].messageId == id && store[0].thread.Some? then store[0].thread
    else ByMessageId(store[1..], account, id)
  }

  /** The database strips at most one prefix from a stored subject, and trims nothing. */
  function SqlStripped(s: string): string
  {
    if Strip(s).Some? then Strip(s).value else s
  }

  predicate SubjectMatches(e: Email, account: nat, subject: string, cutoff: int)
  {
    e.account == account && e.thread.Some? && e.receivedAt > cutoff && SqlStripped(e.subject) == subject
  }

  /** The most recently received match, the earlier listed of equals. */
  function BySubject(store: seq<Email>, account: nat, subject: string, cutoff: int): Option<Email>
  {
    if store == [] then None
    else
      var e, rest := store[0], BySubject(store[1..], account, subject, cutoff);
      if SubjectMatches(e, account, subject, cutoff) && (rest.None? || e.receivedAt >= rest.value.receivedAt)
      then Some(e) else rest
  }

  /** The thread of the last of the first n references that has one. */
  function ByReferences(store: seq<Email>, account: nat, references: seq<nat>, n: nat): Option<nat>
    requires n <= |references|
  {
    if n == 0 then None
    else if ByMessageId(store, account, references[n - 1]).Some? then ByMessageId(store, account, references[n - 1])
    else ByReferences(store, account, references, n - 1)
  }

  /** Some stored email of the account is in that thread. */
  ghost predicate HasThread(store: seq<Email>, account: nat, thread: nat)
  {
    exists e :: e in store && e.account == account && e.thread == Some(thread)
  }

  predicate Answers(e: Email, account: nat, id: nat)
  {
    e.account == account && e.messageId == id && e.thread.Some?
  }

  ghost predicate FirstAnswer(store: seq<Email>, account: nat, id: nat, k: nat)
  {
    && k < |store| && Answers(store[k], account, id)
    && forall j :: 0 <= j < k ==> !Answers(store[j], account, id)
  }

  /** The look-up by message id answers with the thread of the first email of that account and id that has
      one. */
  lemma {:induction false} ByMessageIdExactly(store: seq<Email>, account: nat, id: nat, thread: nat)
    ensures ByMessageId(store, account, id) == Some(thread) <==>
      exists k: nat :: FirstAnswer(store, account, id, k) && store[k].thread == Some(thread)
  {
    if store != [] {
      var rest := store[1..];
      ByMessageIdExactly(rest, account, id, thread);
      forall k: nat ensures !Answers(store[0], account, id) ==>
        (FirstAnswer(rest, account, id, k) <==> FirstAnswer(store, account, id, k + 1))
      {
        assert forall j :: 0 < j < k + 1 && j < |store| ==> store[j] == rest[j - 1];
        assert forall j :: 0 <= j < k && j < |rest| ==> rest[j] == store[j + 1];
      }
      if Answers(store[0], account, id) {
        assert FirstAnswer(store, account, id, 0);
      } else if k: nat :| FirstAnswer(store, account, id, k) && store[k].thread == Some(thread) {
        assert FirstAnswer(rest, account, id, k - 1);
      }
    }
  }

  lemma KnownThread(store: seq<Email>, account: nat, id: nat)
    ensures ByMessageId(store, account, id).Some? ==> HasThread(store, account, ByMessageId(store, account, id).value)
  {
    var found := ByMessageId(store, account, id);
    if found.Some? {
      ByMessageIdExactly(store, account, id, found.value);
    }
  }

  /** A stored email of the account with that normalised subject as the database strips it, in the thread,
      and received within the 604800 seconds before `receivedAt`, or later. */
  ghost predicate AlikeWithinAWeek(store: seq<Email>, account: nat, parsed: Parsed, thread: nat)
  {
    exists e :: e in store && e.account == account && e.thread == Some(thread)
      && e.receivedAt > parsed.receivedAt - 604_800 && SqlStripped(e.subject) == Normalized(parsed.subject) != []
  }

  /** The email answers one with a known message id: its parent, or one in its reference chain. */
  ghost predicate AnswersKnown(store: seq<Email>, account: nat, parsed: Parsed, thread: nat)
  {
    || (parsed.inReplyTo.Some? && ByMessageId(store, account, parsed.inReplyTo.value) == Some(thread))
    || exists id :: id in parsed.references && ByMessageId(store, account, id) == Some(thread)
  }

  lemma {:induction false} NoKnownReference(store: seq<Email>, account: nat, references: seq<nat>, n: nat)
    requires n <= |references|
    ensures ByReferences(store, account, references, n).None? ==>
      forall k :: 0 <= k < n ==> ByMessageId(store, account, references[k]).None?
  {
    if n > 0 {
      NoKnownReference(store, account, references, n - 1);
    }
  }

  /** The three strategies in order, then a new thread. */
  method AssignThread(store: seq<Email>, account: nat, parsed: Parsed, newThread: nat) returns (thread: nat)
    ensures
      var direct := if parsed.inReplyTo.Some? then ByMessageId(store, account, parsed.inReplyTo.value) else None;
      var chain := ByReferences(store, account, parsed.references, |parsed.references|);
      var subject := Normalized(parsed.subject);
      var alike := if subject == [] then None else BySubject(store, account, subject, parsed.receivedAt - SEVEN_DAYS);
      if direct.Some? then thread == direct.value
      else if chain.Some? then thread == chain.value
      else if alike.Some? && alike.value.thread.Some? then thread == alike.value.thread.value
      else thread == newThread
    ensures thread == newThread || AnswersKnown(store, account, parsed, thread)
      || AlikeWithinAWeek(store, account, parsed, thread)
    ensures thread == newThread || HasThread(store, account, thread)
    ensures (exists t :: AnswersKnown(store, account, parsed, t)) ==> AnswersKnown(store, account, parsed, thread)
    ensures (exists t :: AlikeWithinAWeek(store, account, parsed, t)) ==>
      AnswersKnown(store, account, parsed, thread) || AlikeWithinAWeek(store, account, parsed, thread)
  {
    NoKnownReference(store, account, parsed.references, |parsed.references|);
    if parsed.inReplyTo.Some? {
      var found := ByMessageId(store, account, parsed.inReplyTo.value);
      KnownThread(store, account, parsed.inReplyTo.value);
      if found.Some? {
        return found.value;
      }
    }
    var i := |parsed.references|;
    while i > 0
      invariant 0 <= i <= |parsed.references|
      invariant ByReferences(store, account, parsed.references, |parsed.references|)
        == ByReferences(store, account, parsed.references, i)
    {
      i := i - 1;
      var found := ByMessageId(store, account, parsed.references[i]);
      KnownThread(store, account, parsed.references[i]);
      if found.Some? {
        return found.value;
      }
    }
    var normalizedSubject := NormalizeSubject(parsed.subject);
    if normalizedSubject != [] {
      var found := BySubject(store, account, normalizedSubject, parsed.receivedAt - SEVEN_DAYS);
      MostRecentMatch(store, account, normalizedSubject, parsed.receivedAt - SEVEN_DAYS);
      if found.Some? && found.value.thread.Some? {
        return found.value.thread.value;
      }
    }
    return newThread;
  }

  /** The reference that decides is the last one with a known thread. */
  lemma {:induction false} LastKnownReferenceDecides(store: seq<Email>, account: nat, references: seq<nat>, n: nat, thread: nat)
    requires n <= |references|
    ensures ByReferences(store, account, references, n) == Some(thread) <==>
      exists k :: 0 <= k < n && ByMessageId(store, account, references[k]) == Some(thread) &&
        forall j :: k < j < n ==> ByMessageId(store, account, references[j]).None?
  {
    if n > 0 {
      LastKnownReferenceDecides(store, account, references, n - 1, thread);
      if ByMessageId(store, account, references[n - 1]) == Some(thread) {
        assert ByMessageId(store, account, references[n - 1]) == Some(thread);
      }
    }
  }

  /** The subject fallback picks a match, and no match is more recent. */
  lemma {:induction false} MostRecentMatch(store: seq<Email>, account: nat, subject: string, cutoff: int)
    ensures var r := BySubject(store, account, subject, cutoff);
      && (r.Some? ==> r.value in store && SubjectMatches(r.value, account, subject, cutoff))
      && (forall e :: e in store && SubjectMatches(e, account, subject, cutoff) ==>
            r.Some? && e.receivedAt <= r.value.receivedAt)
  {
    if store != [] {
      MostRecentMatch(store[1..], account, subject, cutoff);
      assert forall e :: e in store <==> e == store[0] || e in store[1..];
    }
  }

  /** A subject that carries at most one prefix, at its very start, and white space only as the pattern
      takes it after the colon: it is normal, or one mark and such a gap in front of its normal form. */
  ghost predicate PlainReply(s: string)
  {
    || s == Normalized(s)
    || exists p: Part, w: string ::
         p.Mark? && WellFormed(p) && RegexBlank(w) && s == Text(p) + (w + Normalized(s))
  }

  lemma StripMarked(p: Part, w: string, n: string)
    requires p.Mark? && WellFormed(p) && RegexBlank(w) && Normal(n)
    ensures Strip(Text(p) + (w + n)) == Some(n)
  {
    StripMark(p.word, p.gap, w + n);
    assert Text(p) + (w + n) == p.word + p.gap + ":" + (w + n);
    DropSpacesBlank(w, n);
    TrimmedStart(n);
  }

  lemma TrimmedStart(n: string)
    requires TrimSpace(n) == n
    ensures DropSpaces(n) == n
  {
    var w := TrimLeftSplits(n);
    TrimRightShortens(TrimLeft(n));
    assert w == [];
  }

  /** The database's stripping agrees with the normaliser exactly on those subjects. */
  lemma SqlAgreesExactly(s: string)
    ensures SqlStripped(s) == Normalized(s) <==> PlainReply(s)
  {
    hide Strip, Text, WellFormed, Normal;
    NormalizedIsNormal(s);
    if SqlStripped(s) == Normalized(s) && Strip(s).Some? {
      var p, w := StripSplits(s);
      assert s == Text(p) + (w + Normalized(s));
    }
    if s == Normalized(s) {
      NormalIsUnstripped(s);
    } else if PlainReply(s) {
      var p: Part, w: string :|
        p.Mark? && WellFormed(p) && RegexBlank(w) && s == Text(p) + (w + Normalized(s));
      StripMarked(p, w, Normalized(s));
    }
  }

  lemma NormalIsUnstripped(s: string)
    requires Normal(s)
    ensures Strip(s).None?
  {
  }

  /** So the subject fallback finds a stored email under its own normalised subject exactly if the
      subject is such a plain one. */
  lemma FallbackFindsExactly(e: Email, cutoff: int)
    requires e.thread.Some? && e.receivedAt > cutoff
    ensures SubjectMatches(e, e.account, Normalized(e.subject), cutoff) <==> PlainReply(e.subject)
  {
    SqlAgreesExactly(e.subject);
  }

  lemma ReIsMark(rest: string)
    ensures Normalized("Re:" + rest) == Normalized(rest)
    ensures Strip("Re:" + rest) == Some(DropSpaces(rest))
  {
    assert "Re" + "" + ":" + rest == "Re:" + rest;
    MarkIsIgnored("Re", "", rest);
    StripMark("Re", "", rest);
  }

  /** With two prefixes it does not, although the email normalises to the topic. */
  lemma NestedReplyIsNotFound(e: Email, cutoff: int, topic: string)
    requires e.subject == "Re:" + ("Re:" + topic) && Normal(topic)
    ensures Normalized(e.subject) == topic && !SubjectMatches(e, e.account, topic, cutoff)
  {
    ReIsMark("Re:" + topic);
    ReIsMark(topic);
    NormalizedIdempotent(topic);
    var one := "Re:" + topic;
    assert !IsRegexSpace(one[0]);
    assert SqlStripped(e.subject) == one;
    assert |one| == |topic| + 3;
  }
}
