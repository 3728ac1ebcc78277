/**
  * The regular-expression searches the front end runs over scheduler output, as a small
  * sequential pattern language: literals, maximal runs of a character class (optionally
  * captured) and single or optional characters. `re.search` is the leftmost start position
  * at which the pattern matches; `re.match` is a match at position 0.
  *
  * Runs are taken greedily and never given back. That agrees with Python's backtracking
  * matcher for every pattern used here, because no run is followed by a token that could
  * begin with a character of the run's own class (`Deterministic` below).
  */
module Patterns {
  import opened Wrappers
  import opened Text

  datatype Class = Digit | NonSpace | Space | NotChar(x: char) | AnyOf(cs: string)

  predicate In(cls: Class, c: char) {
    match cls
    case Digit => IsDigit(c)
    case NonSpace => NotSpace(c)
    case Space => IsSpace(c)
    case NotChar(x) => c != x
    case AnyOf(cs) => c in cs
  }

  function ClassPred(cls: Class): char -> bool {
    c => In(cls, c)
  }

  /** The text of `w` lies entirely in class `cls`. */
  predicate AllIn(cls: Class, w: string) { forall j :: 0 <= j < |w| ==> In(cls, w[j]) }

  /**
    * `Lit(t)` is the literal `t`; `Run(cls, true)` is `(cls+)` and `Run(cls, false)` is `cls+`;
    * `One(cls)` is `(cls)`; `Opt(cls)` is `(cls)?`, capturing `""` when absent.
    */
  datatype Token = Lit(text: string) | Run(cls: Class, capture: bool) | One(cls: Class) | Opt(cls: Class)

  type Pattern = seq<Token>

  /** Whether `c` can be the first character a token consumes. */
  predicate CanStart(t: Token, c: char) {
    match t
    case Lit(text) => |text| > 0 && text[0] == c
    case Run(cls, _) => In(cls, c)
    case One(cls) => In(cls, c)
    case Opt(cls) => In(cls, c)
  }

  /** No run is followed by a token that could start with a character of its class. */
  predicate Deterministic(pat: Pattern) {
    forall k, c :: 0 <= k < |pat| - 1 && pat[k].Run? && CanStart(pat[k + 1], c) ==> !In(pat[k].cls, c)
  }

  /** The groups one token captures: none for a literal or a silent run, otherwise one text of its class. */
  predicate TokenFits(t: Token, c: seq<string>) {
    match t
    case Lit(_) => c == []
    case Run(cls, cap) => if cap then |c| == 1 && |c[0]| > 0 && AllIn(cls, c[0]) else c == []
    case One(cls) => |c| == 1 && |c[0]| == 1 && AllIn(cls, c[0])
    case Opt(cls) => |c| == 1 && |c[0]| <= 1 && AllIn(cls, c[0])
  }

  /** The shape of the captured groups of `pat`: one per capturing token, drawn from its class. */
  predicate Fits(pat: Pattern, g: seq<string>)
    decreases |pat|
  {
    if |pat| == 0 then g == []
    else match pat[0]
      case Lit(_) => Fits(pat[1..], g)
      case Run(cls, cap) =>
        if cap then |g| > 0 && |g[0]| > 0 && AllIn(cls, g[0]) && Fits(pat[1..], g[1..])
        else Fits(pat[1..], g)
      case One(cls) => |g| > 0 && |g[0]| == 1 && AllIn(cls, g[0]) && Fits(pat[1..], g[1..])
      case Opt(cls) => |g| > 0 && |g[0]| <= 1 && AllIn(cls, g[0]) && Fits(pat[1..], g[1..])
  }

  /** Where one token leaves off, and what it captured. */
  datatype Step = Step(next: nat, caps: seq<string>)

  /** One token matched at index `i`: a run is taken to its maximal end. */
  function MatchToken(s: string, t: Token, i: nat): (r: Option<Step>)
    requires i <= |s|
    ensures r.Some? ==> i <= r.value.next <= |s|
  {
    match t
    case Lit(x) => if OccursAt(s, x, i) then Some(Step(i + |x|, [])) else None
    case Run(cls, cap) =>
      var k := RunEnd(s, i, ClassPred(cls));
      if k == i then None else Some(Step(k, if cap then [s[i..k]] else []))
    case One(cls) => if i < |s| && In(cls, s[i]) then Some(Step(i + 1, [s[i..i + 1]])) else None
    case Opt(cls) => if i < |s| && In(cls, s[i]) then Some(Step(i + 1, [s[i..i + 1]])) else Some(Step(i, [""]))
  }

  /**
    * A token succeeds exactly when its literal occurs or its first character is in its class
    * (an optional character always succeeds); it consumes at least that literal or character and
    * captures text of its class.
    */
  lemma TokenShape(s: string, t: Token, i: nat)
    requires i <= |s|
    ensures t.Lit? ==> (MatchToken(s, t, i).Some? <==> OccursAt(s, t.text, i))
    ensures !t.Lit? ==> (MatchToken(s, t, i).Some? <==> t.Opt? || (i < |s| && In(t.cls, s[i])))
    ensures MatchToken(s, t, i).Some? ==> TokenFits(t, MatchToken(s, t, i).value.caps)
    ensures MatchToken(s, t, i).Some? && t.Lit? ==> MatchToken(s, t, i).value.next == i + |t.text|
    ensures MatchToken(s, t, i).Some? && (t.Run? || t.One?) ==> i < MatchToken(s, t, i).value.next
    ensures MatchToken(s, t, i).Some? && |MatchToken(s, t, i).value.caps| == 1 ==>
              MatchToken(s, t, i).value.caps[0] == s[i..MatchToken(s, t, i).value.next]
  {
    if t.Run? {
      var k := RunEnd(s, i, ClassPred(t.cls));
      var w := s[i..k];
      assert i < |s| && In(t.cls, s[i]) ==> ClassPred(t.cls)(s[i]);
      assert AllIn(t.cls, w) by {
        forall j | 0 <= j < |w| ensures In(t.cls, w[j]) { assert ClassPred(t.cls)(s[i + j]); }
      }
    }
  }

  /** The groups captured when `pat` matches `s` starting at index `i`, if it does. */
  function MatchAt(s: string, pat: Pattern, i: nat): Option<seq<string>>
    decreases |pat|
  {
    if i > |s| then None
    else if |pat| == 0 then Some([])
    else match MatchToken(s, pat[0], i)
      case None => None
      case Some(st) =>
        match MatchAt(s, pat[1..], st.next)
        case None => None
        case Some(g) => Some(st.caps + g)
  }

  /** The groups of a match are the groups of its first token followed by those of the rest. */
  lemma FitsCons(t: Token, rest: Pattern, c: seq<string>, g: seq<string>)
    requires TokenFits(t, c) && Fits(rest, g)
    ensures Fits([t] + rest, c + g)
  {
    var pat := [t] + rest;
    assert pat[0] == t && pat[1..] == rest;
    assert |c| == 1 ==> (c + g)[0] == c[0] && (c + g)[1..] == g;
    assert c == [] ==> c + g == g;
  }

  /** A successful match captures one group per capturing token, each drawn from its token's class. */
  lemma {:induction false} MatchFits(s: string, pat: Pattern, i: nat)
    ensures MatchAt(s, pat, i).Some? ==> Fits(pat, MatchAt(s, pat, i).value)
    decreases |pat|
  {
    if i <= |s| && |pat| > 0 && MatchToken(s, pat[0], i).Some? {
      var st := MatchToken(s, pat[0], i).value;
      TokenShape(s, pat[0], i);
      MatchFits(s, pat[1..], st.next);
      if MatchAt(s, pat[1..], st.next).Some? {
        assert pat == [pat[0]] + pat[1..];
        FitsCons(pat[0], pat[1..], st.caps, MatchAt(s, pat[1..], st.next).value);
      }
    }
  }

  datatype Found = Found(at: nat, groups: seq<string>)

  /** Python's `re.search(pat, s)` started at `from`: the leftmost position where `pat` matches. */
  function SearchFrom(s: string, pat: Pattern, from: nat): (r: Option<Found>)
    ensures r.Some? ==> from <= r.value.at <= |s| && MatchAt(s, pat, r.value.at) == Some(r.value.groups)
    ensures r.Some? ==> forall j :: from <= j < r.value.at ==> MatchAt(s, pat, j).None?
    ensures r.None? ==> forall j :: from <= j <= |s| ==> MatchAt(s, pat, j).None?
    decreases |s| + 1 - from
  {
    if from > |s| then None
    else match MatchAt(s, pat, from)
      case Some(g) => Some(Found(from, g))
      case None => SearchFrom(s, pat, from + 1)
  }

  function Search(s: string, pat: Pattern): (r: Option<Found>)
    ensures r.Some? ==> Fits(pat, r.value.groups)
  {
    var r := SearchFrom(s, pat, 0);
    if r.Some? then MatchFits(s, pat, r.value.at); r else r
  }

  /** The captured run of `re.search(key + "(cls+)", s)`, if the search succeeds. */
  function KeyRun(s: string, key: string, cls: Class): (r: Option<string>)
    ensures r.Some? ==> |r.value| > 0 && AllIn(cls, r.value)
  {
    var pat := [Lit(key), Run(cls, true)];
    match Search(s, pat)
    case None => None
    case Some(f) =>
      assert pat[0].Lit? && pat[1..][0] == Run(cls, true);
      assert Fits(pat[1..], f.groups);
      Some(f.groups[0])
  }

  // ---------------------------------------------------------------------------------------
  // The patterns of the front end

  /** `Key=(\S+)`, also written `Key=([^\s]+)`. */
  function KeyWord(key: string): Pattern { [Lit(key), Run(NonSpace, true)] }

  /** `Key=(\d+)`. */
  function KeyNumber(key: string): Pattern { [Lit(key), Run(Digit, true)] }

  /** `Memory=(\d+)([MG])`. */
  const MemoryWithUnit: Pattern := [Lit("Memory="), Run(Digit, true), One(AnyOf("MG"))]

  /** `(\d+)([MG])?`. */
  const NumberWithOptionalUnit: Pattern := [Run(Digit, true), Opt(AnyOf("MG"))]

  /** `\[(\d+)-(\d+)\]`. */
  const BracketRange: Pattern := [Lit("["), Run(Digit, true), Lit("-"), Run(Digit, true), Lit("]")]

  /** `gpu:([^:]+):(\d+)`. */
  const GpuTypeCount: Pattern := [Lit("gpu:"), Run(NotChar(':'), true), Lit(":"), Run(Digit, true)]

  /** `mate-terminal -e\s+"([^"]+)"`. */
  const MateTerminalCommand: Pattern :=
    [Lit("mate-terminal -e"), Run(Space, false), Lit("\""), Run(NotChar('"'), true), Lit("\"")]

  lemma PatternsDeterministic(key: string)
    requires |key| > 0
    ensures Deterministic(KeyWord(key)) && Deterministic(KeyNumber(key))
    ensures Deterministic(MemoryWithUnit) && Deterministic(NumberWithOptionalUnit)
    ensures Deterministic(BracketRange) && Deterministic(GpuTypeCount)
    ensures Deterministic(MateTerminalCommand)
  {
  }

  // ---------------------------------------------------------------------------------------
  // Matching one token at a time

  lemma MatchEnd(s: string, i: nat)
    requires i <= |s|
    ensures MatchAt(s, [], i) == Some([])
  {
  }

  /** A pattern matches from its `k`-th token on when that token does and the rest matches where it left off. */
  lemma MatchCons(s: string, pat: Pattern, k: nat, i: nat, next: nat, c: seq<string>, g: seq<string>)
    requires k < |pat| && i <= |s| && MatchToken(s, pat[k], i) == Some(Step(next, c))
    requires MatchAt(s, pat[k + 1..], next) == Some(g)
    ensures MatchAt(s, pat[k..], i) == Some(c + g)
  {
    assert pat[k..][0] == pat[k] && pat[k..][1..] == pat[k + 1..];
  }

  /** The empty rest of a pattern matches anywhere within the text. */
  lemma MatchRestEnd(s: string, pat: Pattern, i: nat)
    requires i <= |s|
    ensures MatchAt(s, pat[|pat|..], i) == Some([])
  {
  }

  /** Characters `[i, k)` of `s` form a maximal non-empty run of `cls`. */
  predicate RunSpan(s: string, cls: Class, i: nat, k: nat) {
    i < k <= |s| && (forall j :: i <= j < k ==> In(cls, s[j])) && (k == |s| || !In(cls, s[k]))
  }

  /** A literal that occurs at `i` is consumed whole. */
  lemma LitAt(s: string, t: string, i: nat)
    requires OccursAt(s, t, i)
    ensures MatchToken(s, Lit(t), i) == Some(Step(i + |t|, []))
  {
  }

  /** A run token at the start of a maximal run takes all of it. */
  lemma RunAt(s: string, cls: Class, cap: bool, i: nat, k: nat)
    requires RunSpan(s, cls, i, k)
    ensures MatchToken(s, Run(cls, cap), i) == Some(Step(k, if cap then [s[i..k]] else []))
  {
    forall j | i <= j < k ensures ClassPred(cls)(s[j]) { }
    RunEndIs(s, i, ClassPred(cls), k);
  }

  /** Four tokens, each matching where the one before it left off, match as a pattern. */
  lemma MatchFour(s: string, u0: Token, u1: Token, u2: Token, u3: Token,
                  p0: nat, p1: nat, p2: nat, p3: nat, p4: nat,
                  c0: seq<string>, c1: seq<string>, c2: seq<string>, c3: seq<string>)
    requires p0 <= p1 <= p2 <= p3 <= p4 <= |s|
    requires MatchToken(s, u0, p0) == Some(Step(p1, c0))
    requires MatchToken(s, u1, p1) == Some(Step(p2, c1))
    requires MatchToken(s, u2, p2) == Some(Step(p3, c2))
    requires MatchToken(s, u3, p3) == Some(Step(p4, c3))
    ensures MatchAt(s, [u0, u1, u2, u3], p0) == Some(c0 + (c1 + (c2 + c3)))
  {
    var pat := [u0, u1, u2, u3];
    assert pat[4..] == pat[|pat|..];
    MatchRestEnd(s, pat, p4);
    MatchCons(s, pat, 3, p3, p4, c3, []);
    assert c3 + [] == c3;
    MatchCons(s, pat, 2, p2, p3, c2, c3);
    MatchCons(s, pat, 1, p1, p2, c1, c2 + c3);
    MatchCons(s, pat, 0, p0, p1, c0, c1 + (c2 + c3));
    assert pat[0..] == pat;
  }

  /** Five tokens, each matching where the one before it left off, match as a pattern. */
  lemma MatchFive(s: string, u0: Token, u1: Token, u2: Token, u3: Token, u4: Token,
                  p0: nat, p1: nat, p2: nat, p3: nat, p4: nat, p5: nat,
                  c0: seq<string>, c1: seq<string>, c2: seq<string>, c3: seq<string>, c4: seq<string>)
    requires p0 <= p1 <= p2 <= p3 <= p4 <= p5 <= |s|
    requires MatchToken(s, u0, p0) == Some(Step(p1, c0)) && MatchToken(s, u1, p1) == Some(Step(p2, c1))
    requires MatchToken(s, u2, p2) == Some(Step(p3, c2)) && MatchToken(s, u3, p3) == Some(Step(p4, c3))
    requires MatchToken(s, u4, p4) == Some(Step(p5, c4))
    ensures MatchAt(s, [u0, u1, u2, u3, u4], p0) == Some(c0 + (c1 + (c2 + (c3 + c4))))
  {
    var pat := [u0, u1, u2, u3, u4];
    assert pat[5..] == pat[|pat|..];
    MatchRestEnd(s, pat, p5);
    MatchCons(s, pat, 4, p4, p5, c4, []);
    assert c4 + [] == c4;
    MatchCons(s, pat, 3, p3, p4, c3, c4);
    MatchCons(s, pat, 2, p2, p3, c2, c3 + c4);
    MatchCons(s, pat, 1, p1, p2, c1, c2 + (c3 + c4));
    MatchCons(s, pat, 0, p0, p1, c0, c1 + (c2 + (c3 + c4)));
    assert pat[0..] == pat;
  }

  /** The decimal digits of a number are a run of the digit class. */
  lemma NumeralDigits(n: nat)
    ensures |NatToString(n)| > 0 && AllIn(Digit, NatToString(n))
  {
    var ns := NatToString(n);
    forall j | 0 <= j < |ns| ensures In(Digit, ns[j]) { assert IsDigit(ns[j]); }
  }

  /** The shape `t1 (cls+) t2 (\d+)` anchored at the start, on a text laid out by positions. */
  lemma MatchWordThenNumberAt(s: string, t1: string, cls: Class, t2: string, p2: nat, p4: nat)
    requires OccursAt(s, t1, 0) && RunSpan(s, cls, |t1|, p2)
    requires OccursAt(s, t2, p2) && RunSpan(s, Digit, p2 + |t2|, p4)
    ensures MatchAt(s, [Lit(t1), Run(cls, true), Lit(t2), Run(Digit, true)], 0)
              == Some([s[|t1|..p2], s[p2 + |t2|..p4]])
  {
    var w, ns := s[|t1|..p2], s[p2 + |t2|..p4];
    LitAt(s, t1, 0);
    RunAt(s, cls, true, |t1|, p2);
    LitAt(s, t2, p2);
    RunAt(s, Digit, true, p2 + |t2|, p4);
    MatchFour(s, Lit(t1), Run(cls, true), Lit(t2), Run(Digit, true), 0, |t1|, p2, p2 + |t2|, p4, [], [w], [], [ns]);
    assert [] + ([w] + ([] + [ns])) == [w, ns];
  }

  /** Where the pieces of `t1 + w + t2 + ds + post` lie, when `w` is a run of `cls` and `ds` a run of digits. */
  lemma WordThenNumberLayout(s: string, t1: string, w: string, cls: Class, t2: string, ds: string, post: string)
    requires s == t1 + w + t2 + ds + post
    requires |w| > 0 && AllIn(cls, w)
    requires |t2| > 0 && !In(cls, t2[0])
    requires |ds| > 0 && AllIn(Digit, ds)
    requires |post| == 0 || !IsDigit(post[0])
    ensures OccursAt(s, t1, 0) && RunSpan(s, cls, |t1|, |t1| + |w|)
    ensures OccursAt(s, t2, |t1| + |w|) && RunSpan(s, Digit, |t1| + |w| + |t2|, |t1| + |w| + |t2| + |ds|)
    ensures s[|t1|..|t1| + |w|] == w && s[|t1| + |w| + |t2|..|t1| + |w| + |t2| + |ds|] == ds
  {
    var p1 := |t1|;
    var p2 := p1 + |w|;
    var p3 := p2 + |t2|;
    var p4 := p3 + |ds|;
    assert s[..p1] == t1;
    assert s[p1..p2] == w;
    assert s[p2..p3] == t2;
    assert s[p3..p4] == ds;
    assert p4 < |s| ==> s[p4] == post[0];
  }

  /** The shape `t1 (cls+) t2 (\d+)` on `t1 + w + t2 + digits(n) + post`, anchored at the start. */
  lemma MatchWordThenNumber(s: string, t1: string, w: string, cls: Class, t2: string, n: nat, post: string)
    requires s == t1 + w + t2 + NatToString(n) + post
    requires |w| > 0 && AllIn(cls, w)
    requires |t2| > 0 && !In(cls, t2[0])
    requires |post| == 0 || !IsDigit(post[0])
    ensures MatchAt(s, [Lit(t1), Run(cls, true), Lit(t2), Run(Digit, true)], 0) == Some([w, NatToString(n)])
  {
    NumeralDigits(n);
    WordThenNumberLayout(s, t1, w, cls, t2, NatToString(n), post);
    MatchWordThenNumberAt(s, t1, cls, t2, |t1| + |w|, |t1| + |w| + |t2| + |NatToString(n)|);
  }

  /** The shape `t1 (\d+) t2 (\d+) t3` at `p0`, on a text laid out by positions. */
  lemma MatchTwoNumbersAt(s: string, t1: string, t2: string, t3: string, p0: nat, p2: nat, p4: nat, as_: string, bs: string)
    requires OccursAt(s, t1, p0) && RunSpan(s, Digit, p0 + |t1|, p2)
    requires OccursAt(s, t2, p2) && RunSpan(s, Digit, p2 + |t2|, p4)
    requires OccursAt(s, t3, p4)
    requires as_ == s[p0 + |t1|..p2] && bs == s[p2 + |t2|..p4]
    ensures MatchAt(s, [Lit(t1), Run(Digit, true), Lit(t2), Run(Digit, true), Lit(t3)], p0) == Some([as_, bs])
  {
    LitAt(s, t1, p0);
    RunAt(s, Digit, true, p0 + |t1|, p2);
    LitAt(s, t2, p2);
    RunAt(s, Digit, true, p2 + |t2|, p4);
    LitAt(s, t3, p4);
    MatchFive(s, Lit(t1), Run(Digit, true), Lit(t2), Run(Digit, true), Lit(t3),
              p0, p0 + |t1|, p2, p2 + |t2|, p4, p4 + |t3|, [], [as_], [], [bs], []);
    assert [] + ([as_] + ([] + ([bs] + []))) == [as_, bs];
  }

  /** Where the pieces of `pre + t1 + as + t2 + bs + t3 + post` lie, when `as` and `bs` are digit runs. */
  lemma TwoNumbersLayout(s: string, pre: string, t1: string, as_: string, t2: string, bs: string, t3: string, post: string)
    requires s == pre + t1 + as_ + t2 + bs + t3 + post
    requires |as_| > 0 && AllIn(Digit, as_) && |bs| > 0 && AllIn(Digit, bs)
    requires |t2| > 0 && !IsDigit(t2[0]) && |t3| > 0 && !IsDigit(t3[0])
    ensures var p2 := |pre| + |t1| + |as_|;
            var p4 := p2 + |t2| + |bs|;
            && OccursAt(s, t1, |pre|) && RunSpan(s, Digit, |pre| + |t1|, p2)
            && OccursAt(s, t2, p2) && RunSpan(s, Digit, p2 + |t2|, p4) && OccursAt(s, t3, p4)
            && s[|pre| + |t1|..p2] == as_ && s[p2 + |t2|..p4] == bs
  {
    var p1 := |pre| + |t1|;
    var p2 := p1 + |as_|;
    var p3 := p2 + |t2|;
    var p4 := p3 + |bs|;
    assert s[|pre|..p1] == t1;
    assert s[p1..p2] == as_;
    assert s[p2..p3] == t2;
    assert s[p3..p4] == bs;
    assert s[p4..p4 + |t3|] == t3;
  }

  // ---------------------------------------------------------------------------------------
  // What a keyed search finds

  /** `Key` followed by a maximal non-empty run of `cls` matches there, capturing the run, and nowhere else. */
  lemma MatchKeyRun(s: string, key: string, cls: Class, i: nat)
    ensures MatchAt(s, [Lit(key), Run(cls, true)], i).Some? <==>
              OccursAt(s, key, i) && i + |key| < |s| && In(cls, s[i + |key|])
    ensures MatchAt(s, [Lit(key), Run(cls, true)], i).Some? ==>
              MatchAt(s, [Lit(key), Run(cls, true)], i).value == [s[i + |key|..RunEnd(s, i + |key|, ClassPred(cls))]]
  {
    var pat := [Lit(key), Run(cls, true)];
    assert pat[0..] == pat;
    if i <= |s| {
      if OccursAt(s, key, i) {
        var j := i + |key|;
        if j < |s| && In(cls, s[j]) {
          var st := MatchToken(s, Run(cls, true), j).value;
          assert st.caps + [] == st.caps && [] + st.caps == st.caps;
          MatchRestEnd(s, pat, st.next);
          MatchCons(s, pat, 1, j, st.next, st.caps, []);
          MatchCons(s, pat, 0, i, j, [], st.caps);
        } else {
          assert pat[1..][0] == Run(cls, true);
        }
      }
    }
  }

  /** The search reports the first position where the pattern matches, with that match's groups. */
  lemma {:induction false} SearchFindsFirst(s: string, pat: Pattern, from: nat, i: nat, g: seq<string>)
    requires from <= i <= |s|
    requires forall j :: from <= j < i ==> MatchAt(s, pat, j).None?
    requires MatchAt(s, pat, i) == Some(g)
    ensures SearchFrom(s, pat, from) == Some(Found(i, g))
    decreases i - from
  {
    if from < i {
      SearchFindsFirst(s, pat, from + 1, i, g);
    }
  }

  /**
    * A text of the form `pre + key + v + post`, in which `key` does not occur earlier, `v` is a
    * non-empty run of `cls` and `post` does not continue it: the search finds exactly `v`.
    */
  lemma KeyRunFound(pre: string, key: string, v: string, post: string, cls: Class)
    requires forall j :: 0 <= j < |pre| ==> !OccursAt(pre + key + v + post, key, j)
    requires |v| > 0 && AllIn(cls, v)
    requires |post| == 0 || !In(cls, post[0])
    ensures KeyRun(pre + key + v + post, key, cls) == Some(v)
  {
    var s := pre + key + v + post;
    var pat := [Lit(key), Run(cls, true)];
    var i := |pre|;
    var j := i + |key|;
    forall m | 0 <= m < i ensures MatchAt(s, pat, m).None? {
      MatchKeyRun(s, key, cls, m);
    }
    assert s[i..j] == key;
    forall m | j <= m < j + |v| ensures ClassPred(cls)(s[m]) {
      assert s[m] == v[m - j];
    }
    if |post| > 0 {
      assert s[j + |v|] == post[0];
    }
    RunEndIs(s, j, ClassPred(cls), j + |v|);
    assert s[j..j + |v|] == v;
    MatchKeyRun(s, key, cls, i);
    SearchFindsFirst(s, pat, 0, i, [v]);
  }

  /** A keyed search succeeds exactly when some occurrence of the key is followed by a class character. */
  lemma KeyRunFoundIff(s: string, key: string, cls: Class)
    ensures KeyRun(s, key, cls).Some? <==>
              exists i :: 0 <= i <= |s| && OccursAt(s, key, i) && i + |key| < |s| && In(cls, s[i + |key|])
  {
    var pat := [Lit(key), Run(cls, true)];
    var r := SearchFrom(s, pat, 0);
    if r.Some? {
      MatchKeyRun(s, key, cls, r.value.at);
    } else {
      forall i | 0 <= i <= |s| ensures !(OccursAt(s, key, i) && i + |key| < |s| && In(cls, s[i + |key|])) {
        MatchKeyRun(s, key, cls, i);
      }
    }
  }

  // ---------------------------------------------------------------------------------------
  // Values read from the groups of each pattern

  lemma AllInDigit(w: string)
    requires AllIn(Digit, w)
    ensures AllDigits(w)
  {
    forall j | 0 <= j < |w| ensures IsDigit(w[j]) { assert In(Digit, w[j]); }
  }

  lemma DigitInAll(w: string)
    requires AllDigits(w)
    ensures AllIn(Digit, w)
  {
    forall j | 0 <= j < |w| ensures In(Digit, w[j]) { assert IsDigit(w[j]); }
  }

  /** `int(m.group(1))` for `m = re.search(key + r"(\d+)", s)`. */
  function KeyNumberValue(s: string, key: string): (r: Option<nat>)
    ensures r.Some? <==> KeyRun(s, key, Digit).Some?
  {
    match KeyRun(s, key, Digit)
    case None => None
    case Some(w) => AllInDigit(w); Some(DigitsValue(w))
  }

  /** A key followed by the decimal digits of `n`, not followed by another digit, is read back as `n`. */
  lemma KeyNumberFound(pre: string, key: string, n: nat, post: string)
    requires forall j :: 0 <= j < |pre| ==> !OccursAt(pre + key + NatToString(n) + post, key, j)
    requires |post| == 0 || !IsDigit(post[0])
    ensures KeyNumberValue(pre + key + NatToString(n) + post, key) == Some(n)
  {
    NumeralDigits(n);
    KeyRunFound(pre, key, NatToString(n), post, Digit);
    ParseIntOfString(n);
  }

  /** `(int(m.group(1)), m.group(2))` for `m = re.search(r"Memory=(\d+)([MG])", s)`. */
  function MemoryWithUnitValue(s: string): (r: Option<(nat, char)>)
    ensures r.Some? ==> r.value.1 == 'M' || r.value.1 == 'G'
  {
    match Search(s, MemoryWithUnit)
    case None => None
    case Some(f) =>
      var g := f.groups;
      assert MemoryWithUnit[1..][1..] == [One(AnyOf("MG"))];
      assert |g| == 2 && AllIn(Digit, g[0]) && |g[1]| == 1 && In(AnyOf("MG"), g[1][0]);
      AllInDigit(g[0]);
      Some((DigitsValue(g[0]), g[1][0]))
  }

  /** `(int(m.group(1)), m.group(2) or "")` for `m = re.search(r"(\d+)([MG])?", s)`. */
  function NumberWithUnitValue(s: string): (r: Option<(nat, string)>)
    ensures r.Some? ==> r.value.1 in {"", "M", "G"}
  {
    match Search(s, NumberWithOptionalUnit)
    case None => None
    case Some(f) =>
      var g := f.groups;
      assert NumberWithOptionalUnit[1..] == [Opt(AnyOf("MG"))];
      assert |g| == 2 && AllIn(Digit, g[0]) && |g[1]| <= 1 && AllIn(AnyOf("MG"), g[1]);
      assert |g[1]| == 1 ==> g[1] == [g[1][0]];
      AllInDigit(g[0]);
      Some((DigitsValue(g[0]), g[1]))
  }

  /** `(int(m.group(1)), int(m.group(2)))` for `m = re.search(r"\[(\d+)-(\d+)\]", s)`. */
  function BracketRangeValue(s: string): (r: Option<(nat, nat)>)
  {
    match Search(s, BracketRange)
    case None => None
    case Some(f) =>
      var g := f.groups;
      assert BracketRange[1..][1..][1..] == [Run(Digit, true), Lit("]")];
      assert |g| == 2 && AllIn(Digit, g[0]) && AllIn(Digit, g[1]);
      AllInDigit(g[0]);
      AllInDigit(g[1]);
      Some((DigitsValue(g[0]), DigitsValue(g[1])))
  }

  /** A pattern that begins with a literal fails wherever that literal does not occur. */
  lemma FirstLitFails(s: string, pat: Pattern, i: nat)
    requires |pat| > 0 && pat[0].Lit? && i <= |s| && !OccursAt(s, pat[0].text, i)
    ensures MatchAt(s, pat, i).None?
  {
  }

  /** The range search reads the first bracketed range of the text, and only that one. */
  lemma BracketRangeFound(s: string, i: nat, as_: string, bs: string)
    requires i <= |s| && forall m :: 0 <= m < i ==> !OccursAt(s, "[", m)
    requires MatchAt(s, BracketRange, i) == Some([as_, bs]) && AllDigits(as_) && AllDigits(bs)
    ensures BracketRangeValue(s) == Some((DigitsValue(as_), DigitsValue(bs)))
  {
    forall m | 0 <= m < i ensures MatchAt(s, BracketRange, m).None? {
      FirstLitFails(s, BracketRange, m);
    }
    SearchFindsFirst(s, BracketRange, 0, i, [as_, bs]);
  }

  /** The range pattern matches `prefix[as-bs]suffix` right after `prefix`, capturing both digit runs. */
  lemma BracketRangeMatches(prefix: string, as_: string, bs: string, suffix: string)
    requires |as_| > 0 && AllDigits(as_) && |bs| > 0 && AllDigits(bs)
    ensures MatchAt(prefix + "[" + as_ + "-" + bs + "]" + suffix, BracketRange, |prefix|) == Some([as_, bs])
  {
    var s := prefix + "[" + as_ + "-" + bs + "]" + suffix;
    DigitInAll(as_);
    DigitInAll(bs);
    TwoNumbersLayout(s, prefix, "[", as_, "-", bs, "]", suffix);
    var p2 := |prefix| + 1 + |as_|;
    MatchTwoNumbersAt(s, "[", "-", "]", |prefix|, p2, p2 + 1 + |bs|, as_, bs);
  }

  /** `prefix[as-bs]suffix`, with no bracket in `prefix`, has the range read from `as` and `bs`. */
  lemma BracketRangeOf(prefix: string, as_: string, bs: string, suffix: string)
    requires '[' !in prefix
    requires |as_| > 0 && AllDigits(as_) && |bs| > 0 && AllDigits(bs)
    ensures BracketRangeValue(prefix + "[" + as_ + "-" + bs + "]" + suffix) == Some((DigitsValue(as_), DigitsValue(bs)))
  {
    var s := prefix + "[" + as_ + "-" + bs + "]" + suffix;
    forall m | 0 <= m < |prefix| ensures !OccursAt(s, "[", m) {
      assert s[m..m + 1][0] == s[m] == prefix[m];
    }
    BracketRangeMatches(prefix, as_, bs, suffix);
    BracketRangeFound(s, |prefix|, as_, bs);
  }

  /** A text without an opening bracket has no range. */
  lemma BracketRangeNeedsBracket(s: string)
    requires '[' !in s
    ensures BracketRangeValue(s) == None
  {
    forall m | 0 <= m <= |s| ensures MatchAt(s, BracketRange, m).None? {
      if m < |s| {
        assert s[m..m + 1][0] == s[m];
      }
      FirstLitFails(s, BracketRange, m);
    }
  }

  /** `(m.group(1), int(m.group(2)))` for `m = re.match(r"gpu:([^:]+):(\d+)", s)`, anchored at the start. */
  function GpuPrefixValue(s: string): (r: Option<(string, nat)>)
    ensures r.Some? ==> |r.value.0| > 0 && ':' !in r.value.0
  {
    match MatchAt(s, GpuTypeCount, 0)
    case None => None
    case Some(g) =>
      assert GpuTypeCount[1..][1..] == [Lit(":"), Run(Digit, true)];
      assert |g| == 2 && |g[0]| > 0 && AllIn(NotChar(':'), g[0]) && AllIn(Digit, g[1]);
      assert ':' !in g[0] by {
        forall j | 0 <= j < |g[0]| ensures g[0][j] != ':' { assert In(NotChar(':'), g[0][j]); }
      }
      AllInDigit(g[1]);
      Some((g[0], DigitsValue(g[1])))
  }

  /** `m.group(1)` for `m = re.search(r'mate-terminal -e\s+"([^"]+)"', s)`. */
  function MateCommandValue(s: string): (r: Option<string>)
    ensures r.Some? ==> |r.value| > 0 && '"' !in r.value
  {
    match Search(s, MateTerminalCommand)
    case None => None
    case Some(f) =>
      var g := f.groups;
      assert MateTerminalCommand[1..][1..][1..] == [Run(NotChar('"'), true), Lit("\"")];
      assert |g| == 1 && |g[0]| > 0 && AllIn(NotChar('"'), g[0]);
      assert '"' !in g[0] by {
        forall j | 0 <= j < |g[0]| ensures g[0][j] != '"' { assert In(NotChar('"'), g[0][j]); }
      }
      Some(g[0])
  }

  /** Where the pieces of `mate-terminal -e<blanks>"<c>"<post>` lie. */
  lemma MateLayout(s: string, lead: string, sp: string, c: string, post: string)
    requires lead == "mate-terminal -e"
    requires s == lead + sp + "\"" + c + "\"" + post
    requires |sp| > 0 && AllSpace(sp) && |c| > 0 && '"' !in c
    ensures var p2 := |lead| + |sp|;
            var p4 := p2 + 1 + |c|;
            && OccursAt(s, lead, 0) && RunSpan(s, Space, |lead|, p2) && OccursAt(s, "\"", p2)
            && RunSpan(s, NotChar('"'), p2 + 1, p4) && OccursAt(s, "\"", p4) && s[p2 + 1..p4] == c
  {
    var p1 := |lead|;
    var p2 := p1 + |sp|;
    var p4 := p2 + 1 + |c|;
    assert s[..p1] == lead;
    assert s[p1..p2] == sp;
    assert s[p2] == '"';
    assert s[p2 + 1..p4] == c;
    assert s[p4] == '"';
    assert s[p2..p2 + 1] == "\"" && s[p4..p4 + 1] == "\"";
    forall j | p2 + 1 <= j < p4 ensures In(NotChar('"'), s[j]) {
      assert s[j] == c[j - p2 - 1];
    }
  }

  /** A terminal entry `mate-terminal -e "<c>"` yields the quoted command `c`. */
  lemma MateCommandFound(sp: string, c: string, post: string)
    requires |sp| > 0 && AllSpace(sp) && |c| > 0 && '"' !in c
    ensures MateCommandValue("mate-terminal -e" + sp + "\"" + c + "\"" + post) == Some(c)
  {
    var lead := "mate-terminal -e";
    var s := lead + sp + "\"" + c + "\"" + post;
    MateLayout(s, lead, sp, c, post);
    var p2 := |lead| + |sp|;
    var p4 := p2 + 1 + |c|;
    LitAt(s, lead, 0);
    RunAt(s, Space, false, |lead|, p2);
    LitAt(s, "\"", p2);
    RunAt(s, NotChar('"'), true, p2 + 1, p4);
    LitAt(s, "\"", p4);
    MatchFive(s, Lit(lead), Run(Space, false), Lit("\""), Run(NotChar('"'), true), Lit("\""),
              0, |lead|, p2, p2 + 1, p4, p4 + 1, [], [], [], [c], []);
    assert [] + ([] + ([] + ([c] + []))) == [c];
    SearchFindsFirst(s, MateTerminalCommand, 0, 0, [c]);
  }
}
