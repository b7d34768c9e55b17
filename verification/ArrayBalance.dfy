/** Balance repair of array environments (`_sanitize_math_balance`).

    The regex scan is represented by its match list: consecutive, disjoint spans of the
    content, each an opener or a closer. Which tokens survive is stated by counting on either
    side of the token, not by the stack the code keeps. */
module ArrayBalance {

  datatype Token = Begin | End

  datatype EnvMatch = EnvMatch(token: Token, start: nat, stop: nat)

  /** What `finditer` guarantees about its matches. */
  ghost predicate ScanOf(content: string, matches: seq<EnvMatch>) {
    && (forall i :: 0 <= i < |matches| ==> matches[i].start < matches[i].stop <= |content|)
    && (forall i, j :: 0 <= i < j < |matches| ==> matches[i].stop <= matches[j].start)
  }

  ghost function Tokens(matches: seq<EnvMatch>): (s: seq<Token>)
    ensures |s| == |matches|
  {
    seq(|matches|, i requires 0 <= i < |matches| => matches[i].token)
  }

  // ------------------------------------------------------------------
  // Balanced token sequences and which tokens of a sequence have a partner
  // ------------------------------------------------------------------

  /** s closes exactly the d environments already open and everything it opens itself. */
  ghost predicate Balanced(s: seq<Token>, d: nat) {
    if s == [] then d == 0
    else if s[0] == Begin then Balanced(s[1..], d + 1)
    else d > 0 && Balanced(s[1..], d - 1)
  }

  /** Closers minus openers. */
  ghost function Excess(s: seq<Token>): int {
    if s == [] then 0 else (if s[0] == Begin then -1 else 1) + Excess(s[1..])
  }

  /** How many openers s wants to have before it: the greatest excess of any of its prefixes. */
  ghost function Deficit(s: seq<Token>): nat {
    if s == [] then 0
    else if s[0] == End then 1 + Deficit(s[1..])
    else if Deficit(s[1..]) > 0 then Deficit(s[1..]) - 1 else 0
  }

  /** How many openers are still unanswered after s, when d were before it. */
  ghost function Pending(s: seq<Token>, d: nat): nat {
    if s == [] then d
    else if s[0] == Begin then Pending(s[1..], d + 1)
    else Pending(s[1..], if d > 0 then d - 1 else 0)
  }

  /** A closer has a partner when an opener is pending before it, an opener when the tokens after
      it ask for one. */
  ghost predicate HasPartner(s: seq<Token>, d: nat, i: nat)
    requires i < |s|
  {
    if s[i] == End then Pending(s[..i], d) > 0 else Deficit(s[i + 1..]) > 0
  }

  ghost function Keep(s: seq<Token>, d: nat): (mask: seq<bool>)
    ensures |mask| == |s|
  {
    seq(|s|, i requires 0 <= i < |s| => HasPartner(s, d, i))
  }

  ghost function Select(s: seq<Token>, mask: seq<bool>): (r: seq<Token>)
    requires |mask| == |s|
    ensures |r| <= |s|
  {
    if s == [] then [] else (if mask[0] then [s[0]] else []) + Select(s[1..], mask[1..])
  }

  lemma KeepUnfold(s: seq<Token>, d: nat)
    requires s != []
    ensures Keep(s, d)[0] == if s[0] == End then d > 0 else Deficit(s[1..]) > 0
    ensures Keep(s, d)[1..] == Keep(s[1..], if s[0] == Begin then d + 1 else if d > 0 then d - 1 else 0)
  {
    var d' := if s[0] == Begin then d + 1 else if d > 0 then d - 1 else 0;
    forall i | 1 <= i < |s|
      ensures HasPartner(s, d, i) == HasPartner(s[1..], d', i - 1)
    {
      assert s[..i][1..] == s[1..][..i - 1];
      assert s[i + 1..] == s[1..][i..];
    }
  }

  ghost function Min(a: nat, b: nat): nat { if a < b then a else b }

  /** Keeping exactly the tokens with a partner leaves a balanced sequence. */
  lemma {:induction false} KeptIsBalanced(s: seq<Token>, d: nat)
    ensures Balanced(Select(s, Keep(s, d)), Min(d, Deficit(s)))
  {
    if s != [] {
      KeepUnfold(s, d);
      var d' := if s[0] == Begin then d + 1 else if d > 0 then d - 1 else 0;
      KeptIsBalanced(s[1..], d');
      var kept := Select(s, Keep(s, d));
      if Keep(s, d)[0] {
        assert kept[1..] == Select(s[1..], Keep(s[1..], d'));
      } else {
        assert kept == Select(s[1..], Keep(s[1..], d'));
      }
    }
  }

  ghost function Closers(s: seq<Token>): nat {
    if s == [] then 0 else (if s[0] == End then 1 else 0) + Closers(s[1..])
  }

  /** Closers answered when d openers are pending. */
  ghost function Answered(s: seq<Token>, d: nat): nat {
    if s == [] then 0
    else if s[0] == Begin then Answered(s[1..], d + 1)
    else if d > 0 then 1 + Answered(s[1..], d - 1)
    else Answered(s[1..], 0)
  }

  /** One more pending opener answers at most one more closer, and never fewer. */
  lemma {:induction false} AnsweredStep(s: seq<Token>, d: nat)
    ensures Answered(s, d) <= Answered(s, d + 1) <= Answered(s, d) + 1
  {
    if s != [] {
      if s[0] == Begin {
        AnsweredStep(s[1..], d + 1);
      } else if d > 0 {
        AnsweredStep(s[1..], d - 1);
      }
    }
  }

  lemma {:induction false} BalancedSize(s: seq<Token>, d: nat)
    requires Balanced(s, d)
    ensures |s| + d == 2 * Closers(s)
  {
    if s != [] {
      BalancedSize(s[1..], if s[0] == Begin then d + 1 else d - 1);
    }
  }

  lemma {:induction false} SelectedClosersAnswered(s: seq<Token>, mask: seq<bool>, d: nat)
    requires |mask| == |s| && Balanced(Select(s, mask), d)
    ensures Closers(Select(s, mask)) <= Answered(s, d)
  {
    if s != [] {
      var rest := Select(s[1..], mask[1..]);
      if mask[0] {
        assert Select(s, mask)[1..] == rest;
        SelectedClosersAnswered(s[1..], mask[1..], if s[0] == Begin then d + 1 else d - 1);
      } else {
        assert Select(s, mask) == rest;
        SelectedClosersAnswered(s[1..], mask[1..], d);
        if s[0] == Begin {
          AnsweredStep(s[1..], d);
        } else if d > 0 {
          AnsweredStep(s[1..], d - 1);
        }
      }
    }
  }

  lemma {:induction false} KeptClosers(s: seq<Token>, d: nat)
    ensures Closers(Select(s, Keep(s, d))) == Answered(s, d)
  {
    if s != [] {
      KeepUnfold(s, d);
      var d' := if s[0] == Begin then d + 1 else if d > 0 then d - 1 else 0;
      KeptClosers(s[1..], d');
      var kept := Select(s, Keep(s, d));
      if Keep(s, d)[0] {
        assert kept[1..] == Select(s[1..], Keep(s[1..], d'));
      } else {
        assert kept == Select(s[1..], Keep(s[1..], d'));
      }
    }
  }

  /** The repair is optimal: its result is balanced, and no balanced subsequence of the tokens
      is longer, that is, none deletes fewer tokens. */
  lemma {:induction false} RepairIsOptimal(s: seq<Token>, mask: seq<bool>)
    requires |mask| == |s| && Balanced(Select(s, mask), 0)
    ensures Balanced(Select(s, Keep(s, 0)), 0)
    ensures |Select(s, mask)| <= |Select(s, Keep(s, 0))|
  {
    KeptIsBalanced(s, 0);
    KeptClosers(s, 0);
    SelectedClosersAnswered(s, mask, 0);
    BalancedSize(Select(s, mask), 0);
    BalancedSize(Select(s, Keep(s, 0)), 0);
  }

  lemma {:induction false} BalancedKeepsAll(s: seq<Token>, d: nat)
    requires Balanced(s, d)
    ensures Deficit(s) == d
    ensures forall i :: 0 <= i < |s| ==> Keep(s, d)[i]
  {
    if s != [] {
      var d' := if s[0] == Begin then d + 1 else d - 1;
      BalancedKeepsAll(s[1..], d');
      KeepUnfold(s, d);
      forall i | 1 <= i < |s| ensures Keep(s, d)[i] {
        assert Keep(s, d)[i] == Keep(s, d)[1..][i - 1];
      }
    }
  }

  lemma {:induction false} SelectAll(s: seq<Token>, mask: seq<bool>)
    requires |mask| == |s|
    ensures (forall i :: 0 <= i < |s| ==> mask[i]) <==> Select(s, mask) == s
    ensures (exists i :: 0 <= i < |s| && !mask[i]) ==> |Select(s, mask)| < |s|
  {
    if s != [] {
      SelectAll(s[1..], mask[1..]);
      if mask[0] {
        assert Select(s, mask)[1..] == Select(s[1..], mask[1..]);
        if i :| 0 <= i < |s| && !mask[i] { assert !mask[1..][i - 1]; }
      }
    }
  }

  /** Nothing is dropped exactly from balanced input. */
  lemma NothingDroppedIffBalanced(s: seq<Token>)
    ensures Balanced(s, 0) <==> (forall i :: 0 <= i < |s| ==> Keep(s, 0)[i])
  {
    if Balanced(s, 0) {
      BalancedKeepsAll(s, 0);
    } else {
      KeptIsBalanced(s, 0);
      SelectAll(s, Keep(s, 0));
    }
  }

  // ------------------------------------------------------------------
  // Cutting tokens out of the content
  // ------------------------------------------------------------------

  /** The content from position `last` on, without the matches from i on whose index is in gone. */
  ghost function Without(content: string, matches: seq<EnvMatch>, gone: set<nat>, i: nat, last: nat): string
    requires ScanOf(content, matches)
    requires i <= |matches| && last <= |content|
    requires i < |matches| ==> last <= matches[i].start
    decreases |matches| - i
  {
    if i == |matches| then content[last..]
    else if i in gone then
      content[last..matches[i].start] + Without(content, matches, gone, i + 1, matches[i].stop)
    else Without(content, matches, gone, i + 1, last)
  }

  /** The character at c belongs to one of these matches. */
  ghost predicate InGone(matches: seq<EnvMatch>, gone: set<nat>, c: nat) {
    exists i :: 0 <= i < |matches| && i in gone && matches[i].start <= c < matches[i].stop
  }

  /** The characters from a up to b that belong to none of them, in order. */
  ghost function Outside(content: string, matches: seq<EnvMatch>, gone: set<nat>, a: nat, b: nat): string
    requires a <= b <= |content|
    decreases b - a
  {
    if a == b then ""
    else (if InGone(matches, gone, a) then "" else [content[a]]) + Outside(content, matches, gone, a + 1, b)
  }

  lemma {:induction false} OutsideNone(content: string, matches: seq<EnvMatch>, gone: set<nat>, a: nat, b: nat)
    requires a <= b <= |content| && forall c: nat :: a <= c < b ==> InGone(matches, gone, c)
    ensures Outside(content, matches, gone, a, b) == ""
    decreases b - a
  {
    hide InGone;
    if a < b { OutsideNone(content, matches, gone, a + 1, b); }
  }

  lemma {:induction false} OutsideAll(content: string, matches: seq<EnvMatch>, gone: set<nat>, a: nat, b: nat)
    requires a <= b <= |content| && forall c: nat :: a <= c < b ==> !InGone(matches, gone, c)
    ensures Outside(content, matches, gone, a, b) == content[a..b]
    decreases b - a
  {
    hide InGone;
    if a < b {
      OutsideAll(content, matches, gone, a + 1, b);
      assert content[a..b] == [content[a]] + content[a + 1..b];
    }
  }

  lemma {:induction false} OutsideSplits(content: string, matches: seq<EnvMatch>, gone: set<nat>, a: nat, b: nat,
                                         c: nat)
    requires a <= b <= c <= |content|
    ensures Outside(content, matches, gone, a, c) ==
            Outside(content, matches, gone, a, b) + Outside(content, matches, gone, b, c)
    decreases b - a
  {
    hide InGone;
    if a < b { OutsideSplits(content, matches, gone, a + 1, b, c); }
  }

  /** Up to the next match nothing is in one that is gone, and all of it is if that one is. */
  lemma GapKeepsAll(content: string, matches: seq<EnvMatch>, gone: set<nat>, i: nat, last: nat)
    requires ScanOf(content, matches) && i <= |matches|
    requires forall k :: 0 <= k < i && k in gone ==> matches[k].stop <= last
    ensures forall c: nat :: last <= c && (i < |matches| ==> c < matches[i].start) ==> !InGone(matches, gone, c)
    ensures i < |matches| && i in gone ==>
      forall c: nat :: matches[i].start <= c < matches[i].stop ==> InGone(matches, gone, c)
  {
  }

  /** Cutting matches out keeps exactly the characters that belong to none of them. */
  lemma {:induction false} WithoutIsOutside(content: string, matches: seq<EnvMatch>, gone: set<nat>, i: nat, last: nat)
    requires ScanOf(content, matches)
    requires i <= |matches| && last <= |content|
    requires i < |matches| ==> last <= matches[i].start
    requires forall k :: 0 <= k < i && k in gone ==> matches[k].stop <= last
    ensures Without(content, matches, gone, i, last) == Outside(content, matches, gone, last, |content|)
    decreases |matches| - i
  {
    GapKeepsAll(content, matches, gone, i, last);
    hide InGone, Outside;
    if i == |matches| {
      OutsideAll(content, matches, gone, last, |content|);
    } else if i in gone {
      var m := matches[i];
      WithoutIsOutside(content, matches, gone, i + 1, m.stop);
      OutsideAll(content, matches, gone, last, m.start);
      OutsideNone(content, matches, gone, m.start, m.stop);
      OutsideSplits(content, matches, gone, last, m.start, |content|);
      OutsideSplits(content, matches, gone, m.start, m.stop, |content|);
    } else {
      WithoutIsOutside(content, matches, gone, i + 1, last);
    }
  }

  lemma {:induction false} KeptRun(content: string, matches: seq<EnvMatch>, gone: set<nat>, i: nat, j: nat, last: nat)
    requires ScanOf(content, matches)
    requires i <= j <= |matches| && last <= |content|
    requires i < |matches| ==> last <= matches[i].start
    requires forall k :: i <= k < j ==> k !in gone
    ensures j < |matches| ==> last <= matches[j].start
    ensures Without(content, matches, gone, i, last) == Without(content, matches, gone, j, last)
    decreases j - i
  {
    if i < j {
      KeptRun(content, matches, gone, i + 1, j, last);
    }
  }

  ghost predicate Increasing(s: seq<nat>) {
    forall i, j :: 0 <= i < j < |s| ==> s[i] < s[j]
  }

  /** Where n belongs in an increasing sequence. */
  function Place(n: nat, s: seq<nat>): (k: nat)
    requires Increasing(s) && n !in s
    ensures k <= |s|
    ensures forall i :: 0 <= i < k ==> s[i] < n
    ensures forall i :: k <= i < |s| ==> n < s[i]
  {
    if s == [] || n < s[0] then 0 else 1 + Place(n, s[1..])
  }

  lemma SortStep(s: seq<nat>, rest: seq<nat>, k: nat)
    requires s != [] && k <= |rest| && Increasing(rest)
    requires forall x :: x in rest <==> x in s[1..]
    requires forall i :: 0 <= i < k ==> rest[i] < s[0]
    requires forall i :: k <= i < |rest| ==> s[0] < rest[i]
    ensures Increasing(rest[..k] + [s[0]] + rest[k..])
    ensures forall x :: x in rest[..k] + [s[0]] + rest[k..] <==> x in s
  {
    assert rest == rest[..k] + rest[k..] && s == [s[0]] + s[1..];
  }

  /** `list.sort`: match indices order like the spans they stand for. */
  function Sort(s: seq<nat>): (r: seq<nat>)
    requires forall i, j :: 0 <= i < j < |s| ==> s[i] != s[j]
    ensures Increasing(r)
    ensures forall x :: x in r <==> x in s
  {
    if s == [] then []
    else
      var rest := Sort(s[1..]);
      var k := Place(s[0], rest);
      SortStep(s, rest, k);
      rest[..k] + [s[0]] + rest[k..]
  }

  // ------------------------------------------------------------------
  // The stack pass
  // ------------------------------------------------------------------

  lemma {:induction false} ExcessAppend(s: seq<Token>, t: Token)
    ensures Excess(s + [t]) == Excess(s) + if t == Begin then -1 else 1
  {
    if s != [] {
      ExcessAppend(s[1..], t);
      assert (s + [t])[1..] == s[1..] + [t];
    }
  }

  lemma {:induction false} DeficitAppend(s: seq<Token>, t: Token)
    ensures Excess(s) <= Deficit(s)
    ensures Deficit(s + [t]) == if Excess(s + [t]) > Deficit(s) then Excess(s + [t]) else Deficit(s)
  {
    ExcessAppend(s, t);
    if s != [] {
      DeficitAppend(s[1..], t);
      assert (s + [t])[1..] == s[1..] + [t];
      ExcessAppend(s[1..], t);
    }
  }

  lemma {:induction false} PendingAppend(s: seq<Token>, d: nat, t: Token)
    ensures Pending(s + [t], d) ==
      if t == Begin then Pending(s, d) + 1 else if Pending(s, d) > 0 then Pending(s, d) - 1 else 0
  {
    if s == [] {
      assert s + [t] == [t];
    } else {
      PendingAppend(s[1..], if s[0] == Begin then d + 1 else if d > 0 then d - 1 else 0, t);
      assert (s + [t])[1..] == s[1..] + [t];
    }
  }

  /** The state of the scan before token n: the stack holds the openers not answered so far,
      innermost last, and its height is the pending count. */
  ghost predicate Stack(s: seq<Token>, n: nat, stack: seq<nat>)
    requires n <= |s|
  {
    && |stack| == Pending(s[..n], 0)
    && (forall j :: 0 <= j < |stack| ==>
          stack[j] < n && s[stack[j]] == Begin
          && Excess(s[stack[j] + 1..n]) == j + 1 - |stack|)
    && (forall i, j :: 0 <= i < j < |stack| ==> stack[i] < stack[j])
    && (forall p :: 0 <= p < n && s[p] == Begin ==>
          (p in stack <==> Deficit(s[p + 1..n]) == 0))
  }

  ghost function NextStack(s: seq<Token>, n: nat, stack: seq<nat>): seq<nat>
    requires n < |s|
  {
    if s[n] == Begin then stack + [n] else if stack == [] then [] else stack[..|stack| - 1]
  }

  lemma StackStep(s: seq<Token>, n: nat, stack: seq<nat>)
    requires n < |s| && Stack(s, n, stack)
    ensures Stack(s, n + 1, NextStack(s, n, stack))
  {
    var next := NextStack(s, n, stack);
    SliceAppend(s, 0, n);
    PendingAppend(s[..n], 0, s[n]);
    forall j | 0 <= j < |next|
      ensures next[j] < n + 1 && s[next[j]] == Begin
              && Excess(s[next[j] + 1..n + 1]) == j + 1 - |next|
    {
      if j < |stack| {
        SliceAppend(s, next[j] + 1, n);
        ExcessAppend(s[next[j] + 1..n], s[n]);
      }
    }
    forall p | 0 <= p < n + 1 && s[p] == Begin
      ensures p in next <==> Deficit(s[p + 1..n + 1]) == 0
    {
      if p == n {
        assert next[|next| - 1] == n;
      } else {
        StackMember(s, n, stack, p);
      }
    }
  }

  lemma SliceAppend(s: seq<Token>, a: nat, n: nat)
    requires a <= n < |s|
    ensures s[a..n + 1] == s[a..n] + [s[n]]
  {
  }

  lemma StackMember(s: seq<Token>, n: nat, stack: seq<nat>, p: nat)
    requires p < n < |s| && s[p] == Begin && Stack(s, n, stack)
    ensures p in NextStack(s, n, stack) <==> Deficit(s[p + 1..n + 1]) == 0
  {
    var w := s[p + 1..n];
    SliceAppend(s, p + 1, n);
    DeficitAppend(w, s[n]);
    ExcessAppend(w, s[n]);
    var next := NextStack(s, n, stack);
    if p in stack {
      var j :| 0 <= j < |stack| && stack[j] == p;
      assert Excess(w) == j + 1 - |stack| && Deficit(w) == 0;
      if j < |next| {
        assert next[j] == p;
      } else {
        assert forall i :: 0 <= i < |next| ==> next[i] < p;
      }
    } else {
      assert Deficit(w + [s[n]]) > 0;
      assert forall i :: 0 <= i < |next| ==> next[i] == n || next[i] in stack;
    }
  }

  /** A closer met with nothing pending. */
  ghost predicate OrphanCloser(s: seq<Token>, p: nat) {
    p < |s| && s[p] == End && Pending(s[..p], 0) == 0
  }

  /** drops lists the indices in gone, once each. */
  ghost predicate Lists(drops: seq<nat>, gone: set<nat>) {
    && (forall x :: x in drops <==> x in gone)
    && (forall i, j :: 0 <= i < j < |drops| ==> drops[i] != drops[j])
  }

  /** The tokens without a partner. */
  ghost function Unpaired(matches: seq<EnvMatch>): set<nat> {
    set i: nat | i < |matches| && !Keep(Tokens(matches), 0)[i]
  }

  /** The loop over the matches: orphaned closers are dropped on the way, and the openers never
      answered are what is left on the stack. */
  method StackPass(matches: seq<EnvMatch>) returns (drops: seq<nat>, openStack: seq<nat>, ghost gone: set<nat>)
    ensures Stack(Tokens(matches), |matches|, openStack)
    ensures Lists(drops, gone)
    ensures forall p: nat :: p in gone <==> OrphanCloser(Tokens(matches), p)
  {
    ghost var s := Tokens(matches);
    drops, openStack, gone := [], [], {};
    var n: nat := 0;
    assert Stack(s, 0, openStack);
    hide Stack, OrphanCloser;
    while n < |matches|
      invariant n <= |matches|
      invariant Stack(s, n, openStack)
      invariant Lists(drops, gone)
      invariant forall p: nat :: p in gone <==> p < n && OrphanCloser(s, p)
    {
      StackStep(s, n, openStack);
      if matches[n].token == Begin {
        openStack := openStack + [n];
      } else if openStack != [] {
        openStack := openStack[..|openStack| - 1];
      } else {
        drops := drops + [n];
        gone := gone + {n};
      }
      n := n + 1;
    }
  }

  /** `_sanitize_math_balance`: the result is the content without the tokens that have no
      partner, and the content itself when the tokens balance. */
  method SanitizeMathBalance(content: string, matches: seq<EnvMatch>) returns (out: string)
    requires ScanOf(content, matches)
    ensures out == Outside(content, matches, Unpaired(matches), 0, |content|)
    ensures Balanced(Tokens(matches), 0) ==> out == content
  {
    var drops, openStack, orphans := StackPass(matches);
    ghost var gone := Unpaired(matches);
    DropsAreUnpaired(matches, drops, openStack, orphans);
    NothingDroppedIffBalanced(Tokens(matches));
    WithoutIsOutside(content, matches, gone, 0, 0);
    assert Balanced(Tokens(matches), 0) ==> gone == {};
    hide Outside, InGone, Stack, Balanced, OrphanCloser, Unpaired;
    drops := drops + openStack;
    if drops == [] {
      KeptRun(content, matches, gone, 0, |matches|, 0);
      return content;
    }
    assert drops[0] in gone;
    var spans := Sort(drops);
    out := CutSpans(content, matches, spans, gone);
  }

  lemma DropsAreUnpaired(matches: seq<EnvMatch>, drops: seq<nat>, openStack: seq<nat>, orphans: set<nat>)
    requires Stack(Tokens(matches), |matches|, openStack) && Lists(drops, orphans)
    requires forall p: nat :: p in orphans <==> OrphanCloser(Tokens(matches), p)
    ensures Lists(drops + openStack, Unpaired(matches)) && forall x :: x in Unpaired(matches) ==> x < |matches|
  {
    UnpairedSplit(matches, openStack, orphans);
    hide Unpaired, OrphanCloser;
    assert forall x :: x in Unpaired(matches) <==> x in orphans || x in openStack;
    assert forall x :: x in drops + openStack <==> x in drops || x in openStack;
  }

  /** The tokens without a partner are the closers met with nothing pending and the openers
      still on the stack at the end. */
  lemma UnpairedSplit(matches: seq<EnvMatch>, stack: seq<nat>, orphans: set<nat>)
    requires Stack(Tokens(matches), |matches|, stack)
    requires forall p: nat :: p in orphans <==> OrphanCloser(Tokens(matches), p)
    ensures forall p: nat :: p in stack ==> p !in orphans
    ensures orphans + (set x | x in stack) == Unpaired(matches)
  {
    var s := Tokens(matches);
    forall p: nat | p < |s| && s[p] == Begin ensures p in stack <==> Deficit(s[p + 1..]) == 0 {
      assert s[p + 1..|s|] == s[p + 1..];
    }
  }

  /** Joins the slices between the spans. */
  method CutSpans(content: string, matches: seq<EnvMatch>, spans: seq<nat>, ghost gone: set<nat>)
    returns (out: string)
    requires ScanOf(content, matches) && Increasing(spans)
    requires forall x :: x in spans <==> x in gone
    requires forall x :: x in gone ==> x < |matches|
    ensures out == Without(content, matches, gone, 0, 0) == Outside(content, matches, gone, 0, |content|)
  {
    WithoutIsOutside(content, matches, gone, 0, 0);
    hide Outside, InGone;
    out := "";
    var last: nat := 0;
    var i: nat := 0;
    ghost var next: nat := 0;  // the first match not yet considered
    while i < |spans|
      invariant i <= |spans| && next <= |matches| && last <= |content|
      invariant next < |matches| ==> last <= matches[next].start
      invariant next == if i == 0 then 0 else spans[i - 1] + 1
      invariant out + Without(content, matches, gone, next, last) == Without(content, matches, gone, 0, 0)
    {
      assert spans[i] in gone;
      GapKept(spans, gone, i, next);
      KeptRun(content, matches, gone, next, spans[i], last);
      out := out + content[last..matches[spans[i]].start];
      last := matches[spans[i]].stop;
      next := spans[i] + 1;
      i := i + 1;
    }
    GapKept(spans, gone, i, next);
    KeptRun(content, matches, gone, next, |matches|, last);
    out := out + content[last..];
  }

  lemma GapKept(spans: seq<nat>, gone: set<nat>, i: nat, next: nat)
    requires Increasing(spans) && i <= |spans|
    requires forall x :: x in spans <==> x in gone
    requires next == if i == 0 then 0 else spans[i - 1] + 1
    ensures forall k :: next <= k && (i < |spans| ==> k < spans[i]) ==> k !in gone
  {
    forall j | 0 <= j < |spans|
      ensures spans[j] < next || (i < |spans| && spans[i] <= spans[j])
    {
    }
  }
}
