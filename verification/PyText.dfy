/** The Python string operations the components share. */
module PyText {

  /** What both `\s` and `str.strip` count as whitespace. */
  predicate IsSpace(c: char) {
    || '\t' <= c <= '\r' || '\U{1C}' <= c <= ' ' || c == '\U{85}' || c == '\U{A0}' || c == '\U{1680}'
    || '\U{2000}' <= c <= '\U{200A}' || c == '\U{2028}' || c == '\U{2029}' || c == '\U{202F}'
    || c == '\U{205F}' || c == '\U{3000}'
  }

  function LStrip(s: string): string {
    if s != "" && IsSpace(s[0]) then LStrip(s[1..]) else s
  }

  function RStrip(s: string): string {
    if s != "" && IsSpace(s[|s| - 1]) then RStrip(s[..|s| - 1]) else s
  }

  /** `str.strip`. */
  function Strip(s: string): string { RStrip(LStrip(s)) }

  /** The stripped text is what stands between the whitespace at either end. */
  lemma StripIs(s: string)
    ensures exists a, b ::
      && 0 <= a <= b <= |s| && Strip(s) == s[a..b]
      && (forall i :: 0 <= i < a || b <= i < |s| ==> IsSpace(s[i]))
      && (a < b ==> !IsSpace(s[a]) && !IsSpace(s[b - 1]))
  {
    hide IsSpace;
    var a := LStripAt(s);
    var b := RStripAt(s[a..]);
    assert s[a..][..b] == s[a..a + b];
    assert forall i :: a + b <= i < |s| ==> s[i] == s[a..][i - a];
    assert a < a + b ==> s[a] == s[a..][0] && s[a + b - 1] == s[a..][b - 1];
  }

  lemma {:induction false} LStripAt(s: string) returns (a: nat)
    ensures a <= |s| && LStrip(s) == s[a..] && forall i :: 0 <= i < a ==> IsSpace(s[i])
    ensures a < |s| ==> !IsSpace(s[a])
  {
    hide IsSpace;
    if s != "" && IsSpace(s[0]) {
      var rest := LStripAt(s[1..]);
      a := rest + 1;
      assert s[1..][rest..] == s[a..];
      assert forall i :: 1 <= i < a ==> s[i] == s[1..][i - 1];
    } else {
      a := 0;
    }
  }

  lemma {:induction false} RStripAt(s: string) returns (b: nat)
    ensures b <= |s| && RStrip(s) == s[..b] && forall i :: b <= i < |s| ==> IsSpace(s[i])
    ensures b > 0 ==> !IsSpace(s[b - 1])
  {
    hide IsSpace;
    if s != "" && IsSpace(s[|s| - 1]) {
      b := RStripAt(s[..|s| - 1]);
      assert s[..|s| - 1][..b] == s[..b];
    } else {
      b := |s|;
      assert s[..b] == s;
    }
  }

  /** `sep.join(parts)`. */
  function Join(sep: string, parts: seq<string>): string {
    if parts == [] then ""
    else if |parts| == 1 then parts[0]
    else Join(sep, parts[..|parts| - 1]) + sep + parts[|parts| - 1]
  }

  /** Joining begins with the first part and a separator. */
  lemma {:induction false} JoinCons(sep: string, x: string, rest: seq<string>)
    ensures Join(sep, [x] + rest) == if rest == [] then x else x + sep + Join(sep, rest)
  {
    if |rest| > 0 {
      var most, last := rest[..|rest| - 1], rest[|rest| - 1];
      assert ([x] + rest)[..|rest|] == [x] + most;
      JoinCons(sep, x, most);
      if most != [] {
        assert x + sep + Join(sep, most) + sep + last == x + sep + (Join(sep, most) + sep + last);
      }
    }
  }

  /** The characters of s that are not whitespace. */
  ghost function Ink(s: string): string {
    if s == "" then "" else (if IsSpace(s[0]) then "" else [s[0]]) + Ink(s[1..])
  }

  /** The ink of several texts in a row. */
  ghost function InkOf(parts: seq<string>): string {
    if parts == [] then "" else InkOf(parts[..|parts| - 1]) + Ink(parts[|parts| - 1])
  }

  lemma {:induction false} InkConcat(a: string, b: string)
    ensures Ink(a + b) == Ink(a) + Ink(b)
  {
    hide IsSpace;
    if a == "" {
      assert a + b == b;
    } else {
      InkConcat(a[1..], b);
      assert (a + b)[1..] == a[1..] + b;
      var head := if IsSpace(a[0]) then "" else [a[0]];
      assert (head + Ink(a[1..])) + Ink(b) == head + (Ink(a[1..]) + Ink(b));
    }
  }

  lemma {:induction false} InkOfConcat(a: seq<string>, b: seq<string>)
    ensures InkOf(a + b) == InkOf(a) + InkOf(b)
  {
    hide Ink;
    if b == [] {
      assert a + b == a && InkOf(a) + "" == InkOf(a);
    } else {
      var n := |b| - 1;
      InkOfConcat(a, b[..n]);
      assert (a + b)[..|a + b| - 1] == a + b[..n] && (a + b)[|a + b| - 1] == b[n];
      assert (InkOf(a) + InkOf(b[..n])) + Ink(b[n]) == InkOf(a) + (InkOf(b[..n]) + Ink(b[n]));
    }
  }

  lemma InkOfSnoc(parts: seq<string>, x: string)
    ensures InkOf(parts + [x]) == InkOf(parts) + Ink(x)
  {
    assert (parts + [x])[..|parts|] == parts;
  }

  lemma {:induction false} BlankHasNoInk(s: string)
    requires forall i :: 0 <= i < |s| ==> IsSpace(s[i])
    ensures Ink(s) == ""
  {
    hide IsSpace;
    if s != "" { BlankHasNoInk(s[1..]); }
  }

  lemma {:induction false} LStripKeepsInk(s: string)
    ensures Ink(LStrip(s)) == Ink(s)
  {
    hide IsSpace;
    if s != "" && IsSpace(s[0]) { LStripKeepsInk(s[1..]); }
  }

  lemma {:induction false} RStripKeepsInk(s: string)
    ensures Ink(RStrip(s)) == Ink(s)
  {
    hide IsSpace;
    if s != "" && IsSpace(s[|s| - 1]) {
      RStripKeepsInk(s[..|s| - 1]);
      assert s == s[..|s| - 1] + [s[|s| - 1]];
      InkConcat(s[..|s| - 1], [s[|s| - 1]]);
      BlankHasNoInk([s[|s| - 1]]);
    }
  }

  /** Stripping loses whitespace only. */
  lemma StripKeepsInk(s: string)
    ensures Ink(Strip(s)) == Ink(s)
  {
    LStripKeepsInk(s);
    RStripKeepsInk(LStrip(s));
  }

  /** Joining with a blank separator adds whitespace only. */
  lemma {:induction false} JoinKeepsInk(sep: string, parts: seq<string>)
    requires forall i :: 0 <= i < |sep| ==> IsSpace(sep[i])
    ensures Ink(Join(sep, parts)) == InkOf(parts)
  {
    if |parts| == 1 {
      assert parts[..0] == [];
    } else if parts != [] {
      var front, last := parts[..|parts| - 1], parts[|parts| - 1];
      JoinKeepsInk(sep, front);
      BlankHasNoInk(sep);
      InkConcat(Join(sep, front) + sep, last);
      InkConcat(Join(sep, front), sep);
    }
  }
}
