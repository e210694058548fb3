/** A small backtracking matcher with the search semantics of Python's `re`
    module, restricted to the constructs the assistant's patterns use:
    literal characters, repeated character classes (greedy or lazy),
    non-capturing alternation, capture groups, positive lookahead and `$`.
    Matching returns the FIRST success in the order Python's engine tries the
    alternatives, which is what `re.search(...).group(n)` reports. */
module Regex {
  import opened Options
  import opened Text

  /** Character classes: `\d`, `\s`, `.`, `[^c]` and a set `[...]` optionally
      including `\s`. */
  datatype Class =
    | Digit
    | Space
    | AnyButNewline
    | NotChar(excluded: char)
    | OneOf(chars: seq<char>, withSpace: bool)

  predicate InClass(cl: Class, c: char) {
    match cl
    case Digit => IsDigit(c)
    case Space => IsSpace(c)
    case AnyButNewline => c != '\n'
    case NotChar(x) => c != x
    case OneOf(cs, sp) => c in cs || (sp && IsSpace(c))
  }

  datatype Node =
    | Lit(c: char)                                          // one literal character
    | Rep(cl: Class, min: nat, max: Option<nat>, greedy: bool)  // cl{min,max}; None = no upper bound
    | Alt(alts: seq<Branch>)                                // (?:a|b|...)
    | Open(group: nat)                                      // start of capture group
    | Close(group: nat)                                     // end of capture group
    | Ahead(alts: seq<Branch>)                              // (?=a|b|...)
    | End                                                   // $ without MULTILINE

  /** One alternative of an alternation or lookahead. */
  datatype Branch = Branch(nodes: seq<Node>)

  datatype Span = Span(start: nat, stop: nat)

  /** Matcher state: the current position, the start positions of open groups
      and the spans of closed ones. */
  datatype State = State(pos: nat, open: map<nat, nat>, spans: map<nat, Span>)

  predicate WellFormed(s: string, st: State) {
    && st.pos <= |s|
    && (forall g :: g in st.open ==> st.open[g] <= st.pos)
    && (forall g :: g in st.spans ==> st.spans[g].start <= st.spans[g].stop <= |s|)
  }

  // ---------------------------------------------------------------------
  // Pattern size, the termination measure of the matcher
  // ---------------------------------------------------------------------

  function Weight(ns: seq<Node>): nat
    decreases ns
  {
    if |ns| == 0 then 0 else NodeWeight(ns[0]) + Weight(ns[1..])
  }

  function NodeWeight(n: Node): nat
    decreases n
  {
    match n
    case Alt(alts) => 1 + AltsWeight(alts)
    case Ahead(alts) => 1 + AltsWeight(alts)
    case _ => 1
  }

  function AltsWeight(alts: seq<Branch>): nat
    decreases alts
  {
    if |alts| == 0 then 0 else Weight(alts[0].nodes) + AltsWeight(alts[1..])
  }

  lemma {:induction false} WeightAppend(a: seq<Node>, b: seq<Node>)
    ensures Weight(a + b) == Weight(a) + Weight(b)
    decreases |a|
  {
    if |a| > 0 {
      assert (a + b)[0] == a[0];
      assert (a + b)[1..] == a[1..] + b;
      WeightAppend(a[1..], b);
      assert Weight(a + b) == NodeWeight(a[0]) + Weight(a[1..] + b);
    } else {
      assert a + b == b;
    }
  }

  lemma {:induction false} AltWeightBound(alts: seq<Branch>, k: nat)
    requires k < |alts|
    ensures Weight(alts[k].nodes) <= AltsWeight(alts)
    decreases k
  {
    if k > 0 {
      AltWeightBound(alts[1..], k - 1);
    }
  }

  // ---------------------------------------------------------------------
  // Matching
  // ---------------------------------------------------------------------

  predicate CharEq(a: char, b: char, ignoreCase: bool) {
    if ignoreCase then LowerChar(a) == LowerChar(b) else a == b
  }

  /** The longest run of class characters starting at `i`, capped at `max`. */
  function Run(cl: Class, s: string, i: nat, max: Option<nat>): (n: nat)
    requires i <= |s|
    decreases |s| - i
    ensures i + n <= |s|
    ensures forall k :: i <= k < i + n ==> InClass(cl, s[k])
    ensures max.Some? ==> n <= max.value
    ensures (max.None? || n < max.value) && i + n < |s| ==> !InClass(cl, s[i + n])
  {
    if i == |s| || !InClass(cl, s[i]) || (max.Some? && max.value == 0) then 0
    else 1 + Run(cl, s, i + 1, if max.Some? then Some(max.value - 1) else None)
  }

  predicate AtEnd(s: string, i: nat) {
    i == |s| || (i + 1 == |s| && s[i] == '\n')
  }

  /** The first way, in Python's backtracking order, that `ns` matches `s`
      starting in state `st`. */
  function Match(ns: seq<Node>, s: string, ignoreCase: bool, st: State): (r: Option<State>)
    requires WellFormed(s, st)
    ensures r.Some? ==> WellFormed(s, r.value) && st.pos <= r.value.pos
    decreases Weight(ns), 0, 0
  {
    if |ns| == 0 then Some(st)
    else
      var rest := ns[1..];
      assert Weight(ns) == NodeWeight(ns[0]) + Weight(rest);
      match ns[0]
      case Lit(c) =>
        if st.pos < |s| && CharEq(s[st.pos], c, ignoreCase)
        then Match(rest, s, ignoreCase, st.(pos := st.pos + 1))
        else None
      case Rep(cl, lo, hi, greedy) =>
        var run := Run(cl, s, st.pos, hi);
        if run < lo then None
        else if greedy then TryFewer(rest, s, ignoreCase, st, run, lo)
        else TryMore(rest, s, ignoreCase, st, lo, run)
      case Alt(alts) =>
        TryAlts(alts, rest, s, ignoreCase, st, 0)
      case Open(g) =>
        Match(rest, s, ignoreCase, st.(open := st.open[g := st.pos]))
      case Close(g) =>
        if g in st.open
        then Match(rest, s, ignoreCase, st.(spans := st.spans[g := Span(st.open[g], st.pos)]))
        else Match(rest, s, ignoreCase, st)
      case Ahead(alts) =>
        if TryAlts(alts, [], s, ignoreCase, st, 0).Some? then Match(rest, s, ignoreCase, st) else None
      case End =>
        if AtEnd(s, st.pos) then Match(rest, s, ignoreCase, st) else None
  }

  /** Greedy repetition: try `count` repetitions, then one fewer, down to `lo`. */
  function TryFewer(rest: seq<Node>, s: string, ignoreCase: bool, st: State, count: nat, lo: nat): (r: Option<State>)
    requires WellFormed(s, st) && st.pos + count <= |s|
    ensures r.Some? ==> WellFormed(s, r.value) && st.pos <= r.value.pos
    decreases Weight(rest), 1, count
  {
    match Match(rest, s, ignoreCase, st.(pos := st.pos + count))
    case Some(r) => Some(r)
    case None => if count > lo then TryFewer(rest, s, ignoreCase, st, count - 1, lo) else None
  }

  /** Lazy repetition: try `count` repetitions, then one more, up to `hi`. */
  function TryMore(rest: seq<Node>, s: string, ignoreCase: bool, st: State, count: nat, hi: nat): (r: Option<State>)
    requires WellFormed(s, st) && st.pos + hi <= |s|
    ensures r.Some? ==> WellFormed(s, r.value) && st.pos <= r.value.pos
    decreases Weight(rest), 1, hi - count
  {
    if count > hi then None
    else match Match(rest, s, ignoreCase, st.(pos := st.pos + count))
      case Some(r) => Some(r)
      case None => TryMore(rest, s, ignoreCase, st, count + 1, hi)
  }

  /** Alternation: try `alts[k]` followed by `rest`, then the next alternative. */
  function TryAlts(alts: seq<Branch>, rest: seq<Node>, s: string, ignoreCase: bool, st: State, k: nat): (r: Option<State>)
    requires WellFormed(s, st)
    ensures r.Some? ==> WellFormed(s, r.value) && st.pos <= r.value.pos
    decreases AltsWeight(alts) + Weight(rest), 1, |alts| - k
  {
    if k >= |alts| then None
    else
      WeightAppend(alts[k].nodes, rest);
      AltWeightBound(alts, k);
      match Match(alts[k].nodes + rest, s, ignoreCase, st)
      case Some(r) => Some(r)
      case None => TryAlts(alts, rest, s, ignoreCase, st, k + 1)
  }

  function Start(i: nat): State {
    State(i, map[], map[])
  }

  /** Python's `re.search`: the match at the leftmost position where the
      pattern matches, positions tried from `i` up to `|s|`. */
  function SearchFrom(ns: seq<Node>, s: string, ignoreCase: bool, i: nat): (r: Option<State>)
    requires i <= |s|
    decreases |s| - i
    ensures r.Some? ==> WellFormed(s, r.value)
  {
    match Match(ns, s, ignoreCase, Start(i))
    case Some(st) => Some(st)
    case None => if i < |s| then SearchFrom(ns, s, ignoreCase, i + 1) else None
  }

  /** Positions where the pattern fails do not change where the search ends up. */
  lemma {:induction false} SearchFromSkips(ns: seq<Node>, s: string, ignoreCase: bool, i: nat, k: nat)
    requires i <= k <= |s|
    requires forall j :: i <= j < k ==> Match(ns, s, ignoreCase, Start(j)) == None
    ensures SearchFrom(ns, s, ignoreCase, i) == SearchFrom(ns, s, ignoreCase, k)
    decreases k - i
  {
    if i < k {
      SearchFromSkips(ns, s, ignoreCase, i + 1, k);
    }
  }

  /** A pattern that fails at every position is not found. */
  lemma SearchFromFails(ns: seq<Node>, s: string, ignoreCase: bool, i: nat)
    requires i <= |s|
    requires forall j :: i <= j <= |s| ==> Match(ns, s, ignoreCase, Start(j)) == None
    ensures SearchFrom(ns, s, ignoreCase, i) == None
  {
    SearchFromSkips(ns, s, ignoreCase, i, |s|);
  }

  function Search(ns: seq<Node>, s: string, ignoreCase: bool): (r: Option<State>)
    ensures r.Some? ==> WellFormed(s, r.value)
  {
    SearchFrom(ns, s, ignoreCase, 0)
  }

  /** `match.group(g)`: the captured text, or None when the group did not take part. */
  function Group(s: string, st: State, g: nat): (r: Option<string>)
    requires WellFormed(s, st)
    ensures r.Some? ==> Contains(s, r.value)
  {
    if g in st.spans then
      var sp := st.spans[g];
      ContainsAt(s, s[sp.start..sp.stop], sp.start);
      Some(s[sp.start..sp.stop])
    else None
  }

  // ---------------------------------------------------------------------
  // Reading off a match step by step
  // ---------------------------------------------------------------------

  /** The word `w` is spelled out in `s` from position `p`. */
  predicate WordAt(w: string, s: string, ignoreCase: bool, p: nat) {
    p + |w| <= |s| && forall k :: 0 <= k < |w| ==> CharEq(s[p + k], w[k], ignoreCase)
  }

  /** A literal word either consumes its own letters or fails. */
  lemma {:induction false} MatchWord(w: string, rest: seq<Node>, s: string, ignoreCase: bool, st: State)
    requires WellFormed(s, st)
    ensures Match(Word(w) + rest, s, ignoreCase, st)
            == if WordAt(w, s, ignoreCase, st.pos) then Match(rest, s, ignoreCase, st.(pos := st.pos + |w|)) else None
    decreases |w|
  {
    if |w| == 0 {
      assert Word(w) + rest == rest;
      assert st.(pos := st.pos + |w|) == st;
    } else {
      WordSplit(w, rest);
      if st.pos < |s| && CharEq(s[st.pos], w[0], ignoreCase) {
        var st1 := st.(pos := st.pos + 1);
        LitStep(w[0], Word(w[1..]) + rest, s, ignoreCase, st);
        MatchWord(w[1..], rest, s, ignoreCase, st1);
        WordAtStep(w, s, ignoreCase, st.pos);
        assert st1.(pos := st1.pos + |w[1..]|) == st.(pos := st.pos + |w|);
      } else {
        LitFails(w[0], Word(w[1..]) + rest, s, ignoreCase, st);
        WordAtFirst(w, s, ignoreCase, st.pos);
      }
    }
  }

  /** A word spelled out only at position `p` matches there and nowhere else. */
  lemma WordOnlyAt(w: string, rest: seq<Node>, s: string, ignoreCase: bool, st: State, p: nat)
    requires WellFormed(s, st) && WordAt(w, s, ignoreCase, p)
    requires WordAt(w, s, ignoreCase, st.pos) ==> st.pos == p
    ensures Match(Word(w) + rest, s, ignoreCase, st)
            == if st.pos == p then Match(rest, s, ignoreCase, st.(pos := p + |w|)) else None
  {
    MatchWord(w, rest, s, ignoreCase, st);
  }

  lemma WordSplit(w: string, rest: seq<Node>)
    requires |w| > 0
    ensures Word(w) + rest == [Lit(w[0])] + (Word(w[1..]) + rest)
  {
    assert Word(w) == [Lit(w[0])] + Word(w[1..]);
    Assoc([Lit(w[0])], Word(w[1..]), rest);
  }

  lemma Assoc<T>(a: seq<T>, b: seq<T>, c: seq<T>)
    ensures (a + b) + c == a + (b + c)
  {
  }

  /** A word whose first letter does not match is not there. */
  lemma WordAtFirst(w: string, s: string, ignoreCase: bool, p: nat)
    requires |w| > 0 && (p < |s| ==> !CharEq(s[p], w[0], ignoreCase))
    ensures !WordAt(w, s, ignoreCase, p)
  {
    if p + |w| <= |s| {
      assert !CharEq(s[p + 0], w[0], ignoreCase);
    }
  }

  lemma WordAtStep(w: string, s: string, ignoreCase: bool, p: nat)
    requires |w| > 0 && p < |s| && CharEq(s[p], w[0], ignoreCase)
    ensures WordAt(w, s, ignoreCase, p) <==> WordAt(w[1..], s, ignoreCase, p + 1)
  {
    if WordAt(w[1..], s, ignoreCase, p + 1) {
      forall k | 0 <= k < |w|
        ensures CharEq(s[p + k], w[k], ignoreCase)
      {
        if k > 0 {
          assert w[1..][k - 1] == w[k];
        }
      }
    }
    if WordAt(w, s, ignoreCase, p) {
      forall k | 0 <= k < |w| - 1
        ensures CharEq(s[p + 1 + k], w[1..][k], ignoreCase)
      {
        assert w[1..][k] == w[k + 1];
      }
    }
  }

  /** `cl+` (greedy or lazy) fails where no character of the class follows. */
  lemma PlusNeedsOne(cl: Class, greedy: bool, rest: seq<Node>, s: string, ignoreCase: bool, st: State)
    requires WellFormed(s, st)
    requires st.pos < |s| ==> !InClass(cl, s[st.pos])
    ensures Match([Rep(cl, 1, None, greedy)] + rest, s, ignoreCase, st) == None
  {
    var ns := [Rep(cl, 1, None, greedy)] + rest;
    assert ns[0] == Rep(cl, 1, None, greedy) && ns[1..] == rest;
    assert Run(cl, s, st.pos, None) == 0;
  }

  /** Ignoring case or not, a character that is not a letter matches only itself. */
  lemma CharEqNonLetter(c: char, x: char, ignoreCase: bool)
    requires !IsUpperLetter(x) && !IsLowerLetter(x)
    ensures CharEq(c, x, ignoreCase) <==> c == x
  {
    assert LowerChar(x) == x;
  }

  /** A word is spelled out where it stands in a concatenation. */
  lemma WordAtAfter(a: string, w: string, t: string, ignoreCase: bool)
    ensures WordAt(w, a + w + t, ignoreCase, |a|)
  {
    forall k | 0 <= k < |w|
      ensures CharEq((a + w + t)[|a| + k], w[k], ignoreCase)
    {
      assert (a + w + t)[|a| + k] == w[k];
    }
  }

  /** A greedy `cl+` facing exactly one class character takes that one. */
  lemma PlusTakesOne(cl: Class, rest: seq<Node>, s: string, ignoreCase: bool, st: State)
    requires WellFormed(s, st) && st.pos < |s| && InClass(cl, s[st.pos])
    requires st.pos + 1 < |s| ==> !InClass(cl, s[st.pos + 1])
    ensures Match([Plus(cl)] + rest, s, ignoreCase, st) == Match(rest, s, ignoreCase, st.(pos := st.pos + 1))
  {
    var ns := [Plus(cl)] + rest;
    assert ns[0] == Rep(cl, 1, None, true) && ns[1..] == rest;
    assert Run(cl, s, st.pos, None) == 1;
    assert Match(ns, s, ignoreCase, st) == TryFewer(rest, s, ignoreCase, st, 1, 1);
  }

  /** An alternation takes the first alternative that matches. */
  lemma TryAltsFirst(alts: seq<Branch>, rest: seq<Node>, s: string, ignoreCase: bool, st: State)
    requires WellFormed(s, st) && |alts| > 0
    requires Match(alts[0].nodes + rest, s, ignoreCase, st).Some?
    ensures TryAlts(alts, rest, s, ignoreCase, st, 0) == Match(alts[0].nodes + rest, s, ignoreCase, st)
  {
  }

  /** A pattern that opens with an alternation tries its alternatives in order. */
  lemma MatchAlt(alts: seq<Branch>, rest: seq<Node>, s: string, ignoreCase: bool, st: State)
    requires WellFormed(s, st)
    ensures Match([Alt(alts)] + rest, s, ignoreCase, st) == TryAlts(alts, rest, s, ignoreCase, st, 0)
  {
    assert ([Alt(alts)] + rest)[0] == Alt(alts) && ([Alt(alts)] + rest)[1..] == rest;
  }

  /** An alternation of words fails when whatever follows fails after each
      word that is spelled out at the current position. */
  lemma {:induction false} WordBranchesFail(ws: seq<string>, rest: seq<Node>, s: string, ignoreCase: bool, st: State, k: nat)
    requires WellFormed(s, st) && k <= |ws|
    requires forall j :: k <= j < |ws| && WordAt(ws[j], s, ignoreCase, st.pos)
                         ==> Match(rest, s, ignoreCase, st.(pos := st.pos + |ws[j]|)) == None
    ensures TryAlts(WordBranches(ws), rest, s, ignoreCase, st, k) == None
    decreases |ws| - k
  {
    if k < |ws| {
      MatchWord(ws[k], rest, s, ignoreCase, st);
      WordBranchesFail(ws, rest, s, ignoreCase, st, k + 1);
    }
  }

  /** An alternation of words followed by `cl+` fails when no class character
      occurs from the current position on. */
  lemma WordsThenPlusFail(ws: seq<string>, cl: Class, rest: seq<Node>, s: string, ignoreCase: bool, st: State)
    requires WellFormed(s, st)
    requires forall k :: st.pos <= k < |s| ==> !InClass(cl, s[k])
    ensures TryAlts(WordBranches(ws), [Plus(cl)] + rest, s, ignoreCase, st, 0) == None
  {
    forall j | 0 <= j < |ws| && WordAt(ws[j], s, ignoreCase, st.pos)
      ensures Match([Plus(cl)] + rest, s, ignoreCase, st.(pos := st.pos + |ws[j]|)) == None
    {
      PlusNeedsOne(cl, true, rest, s, ignoreCase, st.(pos := st.pos + |ws[j]|));
    }
    WordBranchesFail(ws, [Plus(cl)] + rest, s, ignoreCase, st, 0);
  }

  /** `\s*$` fails before a character that is not whitespace. */
  lemma SpacesToEndFails(rest: seq<Node>, s: string, ignoreCase: bool, st: State)
    requires WellFormed(s, st) && st.pos < |s| && !IsSpace(s[st.pos])
    ensures Match([Star(Space), End] + rest, s, ignoreCase, st) == None
  {
    var ns := [Star(Space), End] + rest;
    assert ns[0] == Star(Space) && ns[1..] == [End] + rest;
    assert Run(Space, s, st.pos, None) == 0;
    assert st.(pos := st.pos + 0) == st;
    assert ([End] + rest)[0] == End;
    assert !AtEnd(s, st.pos);
    assert Match([End] + rest, s, ignoreCase, st) == None;
    assert Match(ns, s, ignoreCase, st) == TryFewer([End] + rest, s, ignoreCase, st, 0, 0);
  }

  /** `\s*$` holds at the end of the text. */
  lemma SpacesToEndHolds(rest: seq<Node>, s: string, ignoreCase: bool, st: State)
    requires WellFormed(s, st) && st.pos == |s|
    ensures Match([Star(Space), End] + rest, s, ignoreCase, st) == Match(rest, s, ignoreCase, st)
  {
    var ns := [Star(Space), End] + rest;
    assert ns[0] == Star(Space) && ns[1..] == [End] + rest;
    assert Run(Space, s, st.pos, None) == 0;
    assert st.(pos := st.pos + 0) == st;
    assert ([End] + rest)[0] == End && ([End] + rest)[1..] == rest;
    assert Match([End] + rest, s, ignoreCase, st) == Match(rest, s, ignoreCase, st);
    assert Match(ns, s, ignoreCase, st) == TryFewer([End] + rest, s, ignoreCase, st, 0, 0);
  }

  /** The state after group `g`, opened at `st.pos`, is closed at `p`. */
  function Captured(g: nat, s: string, st: State, p: nat): (t: State)
    requires WellFormed(s, st) && st.pos <= p <= |s|
    ensures WellFormed(s, t) && t.pos == p
  {
    State(p, st.open[g := st.pos], st.spans[g := Span(st.pos, p)])
  }

  /** `(.+?)` followed by a stop `e` that fails before every later character
      and holds at the end of the text captures everything to the end. */
  lemma LazyToEnd(g: nat, e: Node, s: string, ignoreCase: bool, st: State)
    requires WellFormed(s, st) && st.pos < |s|
    requires forall k :: st.pos <= k < |s| ==> s[k] != '\n'
    requires forall p :: st.pos < p < |s| ==> Match([e], s, ignoreCase, Captured(g, s, st, p)) == None
    requires Match([e], s, ignoreCase, Captured(g, s, st, |s|)) == Some(Captured(g, s, st, |s|))
    ensures Match([Open(g), LazyPlus(AnyButNewline), Close(g), e], s, ignoreCase, st) == Some(Captured(g, s, st, |s|))
  {
    var st1 := st.(open := st.open[g := st.pos]);
    var ns := [Open(g), LazyPlus(AnyButNewline), Close(g), e];
    assert ns[0] == Open(g) && ns[1..] == [LazyPlus(AnyButNewline)] + ([Close(g)] + [e]);
    assert Match(ns, s, ignoreCase, st) == Match(ns[1..], s, ignoreCase, st1);
    var hi := |s| - st.pos;
    assert Run(AnyButNewline, s, st.pos, None) == hi;
    assert Match(ns[1..], s, ignoreCase, st1) == TryMore([Close(g)] + [e], s, ignoreCase, st1, 1, hi);
    LazyTail(g, [e], s, ignoreCase, st, 1);
  }

  /** Closing an open group records its span. */
  lemma CloseStep(g: nat, rest: seq<Node>, s: string, ignoreCase: bool, st: State)
    requires WellFormed(s, st) && g in st.open
    ensures Match([Close(g)] + rest, s, ignoreCase, st)
            == Match(rest, s, ignoreCase, st.(spans := st.spans[g := Span(st.open[g], st.pos)]))
  {
    assert ([Close(g)] + rest)[0] == Close(g) && ([Close(g)] + rest)[1..] == rest;
  }

  /** A literal that matches moves on by one character. */
  lemma LitStep(c: char, rest: seq<Node>, s: string, ignoreCase: bool, st: State)
    requires WellFormed(s, st) && st.pos < |s| && CharEq(s[st.pos], c, ignoreCase)
    ensures Match([Lit(c)] + rest, s, ignoreCase, st) == Match(rest, s, ignoreCase, st.(pos := st.pos + 1))
  {
    assert ([Lit(c)] + rest)[0] == Lit(c) && ([Lit(c)] + rest)[1..] == rest;
  }

  /** A literal that does not match fails the whole match. */
  lemma LitFails(c: char, rest: seq<Node>, s: string, ignoreCase: bool, st: State)
    requires WellFormed(s, st) && (st.pos < |s| ==> !CharEq(s[st.pos], c, ignoreCase))
    ensures Match([Lit(c)] + rest, s, ignoreCase, st) == None
  {
    assert ([Lit(c)] + rest)[0] == Lit(c);
  }

  /** Opening a group records where it starts. */
  lemma OpenStep(g: nat, rest: seq<Node>, s: string, ignoreCase: bool, st: State)
    requires WellFormed(s, st)
    ensures Match([Open(g)] + rest, s, ignoreCase, st) == Match(rest, s, ignoreCase, st.(open := st.open[g := st.pos]))
  {
    assert ([Open(g)] + rest)[0] == Open(g) && ([Open(g)] + rest)[1..] == rest;
  }

  /** A greedy `*` whose longest run lets the rest match keeps that run. */
  lemma StarTakesAll(cl: Class, rest: seq<Node>, s: string, ignoreCase: bool, st: State)
    requires WellFormed(s, st)
    requires Match(rest, s, ignoreCase, st.(pos := st.pos + Run(cl, s, st.pos, None))).Some?
    ensures Match([Star(cl)] + rest, s, ignoreCase, st)
            == Match(rest, s, ignoreCase, st.(pos := st.pos + Run(cl, s, st.pos, None)))
  {
    assert ([Star(cl)] + rest)[0] == Rep(cl, 0, None, true) && ([Star(cl)] + rest)[1..] == rest;
  }

  /** The run stops at the first character outside the class. */
  lemma RunStops(cl: Class, s: string, i: nat, e: nat)
    requires i <= e < |s| && !InClass(cl, s[e])
    requires forall k :: i <= k < e ==> InClass(cl, s[k])
    ensures Run(cl, s, i, None) == e - i
  {
  }

  /** The lazy repetition tries each length from `count` on; the stop first
      holds at the end of the text. `st` is the state before the group opens. */
  lemma {:induction false} LazyTail(g: nat, rest: seq<Node>, s: string, ignoreCase: bool, st: State, count: nat)
    requires WellFormed(s, st) && 1 <= count <= |s| - st.pos
    requires forall p :: st.pos < p < |s| ==> Match(rest, s, ignoreCase, Captured(g, s, st, p)) == None
    requires Match(rest, s, ignoreCase, Captured(g, s, st, |s|)) == Some(Captured(g, s, st, |s|))
    ensures TryMore([Close(g)] + rest, s, ignoreCase, st.(open := st.open[g := st.pos]), count, |s| - st.pos)
            == Some(Captured(g, s, st, |s|))
    decreases |s| - st.pos - count
  {
    LazyAt(g, rest, s, ignoreCase, st, count);
    if st.pos + count < |s| {
      LazyTail(g, rest, s, ignoreCase, st, count + 1);
    }
  }

  /** One length of the lazy repetition: the stop is tried where the group closes. */
  lemma LazyAt(g: nat, rest: seq<Node>, s: string, ignoreCase: bool, st: State, count: nat)
    requires WellFormed(s, st) && 1 <= count <= |s| - st.pos
    ensures TryMore([Close(g)] + rest, s, ignoreCase, st.(open := st.open[g := st.pos]), count, |s| - st.pos)
            == match Match(rest, s, ignoreCase, Captured(g, s, st, st.pos + count))
               case Some(r) => Some(r)
               case None => TryMore([Close(g)] + rest, s, ignoreCase, st.(open := st.open[g := st.pos]), count + 1, |s| - st.pos)
  {
    var st1 := st.(open := st.open[g := st.pos]);
    var t := st1.(pos := st1.pos + count);
    CloseStep(g, rest, s, ignoreCase, t);
    assert t.(spans := t.spans[g := Span(t.open[g], t.pos)]) == Captured(g, s, st, st.pos + count);
  }

  // ---------------------------------------------------------------------
  // Pattern-building shorthands
  // ---------------------------------------------------------------------

  /** A literal word. */
  function Word(w: string): (ns: seq<Node>)
    ensures |ns| == |w| && forall i :: 0 <= i < |w| ==> ns[i] == Lit(w[i])
  {
    if |w| == 0 then [] else [Lit(w[0])] + Word(w[1..])
  }

  /** One character of a class. */
  function One(cl: Class): Node { Rep(cl, 1, Some(1), true) }

  /** `cl+` */
  function Plus(cl: Class): Node { Rep(cl, 1, None, true) }

  /** `cl*` */
  function Star(cl: Class): Node { Rep(cl, 0, None, true) }

  /** `cl+?` */
  function LazyPlus(cl: Class): Node { Rep(cl, 1, None, false) }

  /** One branch per literal word. */
  function WordBranches(ws: seq<string>): (alts: seq<Branch>)
    ensures |alts| == |ws| && forall i :: 0 <= i < |ws| ==> alts[i] == Branch(Word(ws[i]))
  {
    seq(|ws|, i requires 0 <= i < |ws| => Branch(Word(ws[i])))
  }

  /** `(?:a|b|...)?` over literal words: the words, then the empty branch. */
  function OptionalWords(ws: seq<string>): Node {
    Alt(WordBranches(ws + [""]))
  }

  /** `(?:a|b|...)` over literal words. */
  function Words(ws: seq<string>): Node {
    Alt(WordBranches(ws))
  }
}
