/**
 Quoted strings of a configuration file: escaping on the way out, unescaping in
 the line buffer on the way in (kconfig/confdata.c).
 */
module ConfStrings {
  import opened Options

  const NUL := '\0'

  predicate Special(c: char) { c == '"' || c == '\\' }

  /** What is written between the quotes. */
  function Escape(s: string): string {
    if s == [] then [] else (if Special(s[0]) then ['\\', s[0]] else [s[0]]) + Escape(s[1..])
  }

  /** What text behind an opening quote means, up to the closing quote; None without one. */
  function Unescape(t: string): Option<string> {
    if t == [] then None
    else if t[0] == '"' then Some([])
    else if t[0] == '\\' then (if |t| == 1 then None else Before(t[1], Unescape(t[2..])))
    else Before(t[0], Unescape(t[1..]))
  }

  function Before(c: char, r: Option<string>): Option<string> { if r.None? then None else Some([c] + r.value) }

  /** Reading back what was written gives the same string, whatever follows the closing quote. */
  lemma {:induction false} RoundTrip(s: string, rest: string)
    ensures Unescape(Escape(s) + ['"'] + rest) == Some(s)
  {
    var t := Escape(s) + ['"'] + rest;
    if s == [] {
      assert t[0] == '"';
    } else {
      RoundTrip(s[1..], rest);
      var u := Escape(s[1..]) + ['"'] + rest;
      if Special(s[0]) {
        assert t == ['\\', s[0]] + u;
        assert t[0] == '\\' && t[1] == s[0] && t[2..] == u;
      } else {
        assert t == [s[0]] + u;
        assert t[0] == s[0] && t[1..] == u;
      }
      assert [s[0]] + s[1..] == s;
    }
  }

  lemma {:induction false} EscapeRun(a: string, b: string)
    requires forall i :: 0 <= i < |a| ==> !Special(a[i])
    ensures Escape(a + b) == a + Escape(b)
  {
    if a == [] {
      assert a + b == b && a + Escape(b) == Escape(b);
    } else {
      EscapeRun(a[1..], b);
      assert (a + b)[0] == a[0] && (a + b)[1..] == a[1..] + b;
      assert [a[0]] + (a[1..] + Escape(b)) == a + Escape(b);
    }
  }

  /** Length of the run without quotes and backslashes from `from` on. */
  method PlainRun(s: string, from: nat) returns (l: nat)
    requires from <= |s|
    ensures from + l <= |s| && (forall i :: from <= i < from + l ==> !Special(s[i]))
    ensures (from + l < |s| ==> Special(s[from + l]))
  {
    l := 0;
    while from + l < |s|
      invariant from + l <= |s| && forall i :: from <= i < from + l ==> !Special(s[i])
    {
      if Special(s[from + l]) { return; }
      l := l + 1;
    }
  }

  /** The writer: runs of plain characters as they are, a backslash before each special one. */
  method WriteEscaped(s: string) returns (out: string)
    ensures out == Escape(s)
  {
    hide Escape;
    out := [];
    var p := 0;
    assert s[0..] == s && [] + Escape(s) == Escape(s);
    while true
      invariant p <= |s| && out + Escape(s[p..]) == Escape(s)
      decreases |s| - p
    {
      var l := PlainRun(s, p);
      WriteRun(s, p, l, out);
      out := out + s[p..p + l];
      p := p + l;
      if p == |s| { break; }
      WriteSpecial(s, p, out);
      out := out + ['\\', s[p]];
      p := p + 1;
    }
    WriteEnd(s, out);
  }

  lemma {:induction false} WriteRun(s: string, p: nat, l: nat, out: string)
    requires p + l <= |s| && forall i :: p <= i < p + l ==> !Special(s[i])
    ensures out + Escape(s[p..]) == (out + s[p..p + l]) + Escape(s[p + l..])
  {
    assert s[p..] == s[p..p + l] + s[p + l..];
    EscapeRun(s[p..p + l], s[p + l..]);
  }

  lemma {:induction false} WriteSpecial(s: string, p: nat, out: string)
    requires p < |s| && Special(s[p])
    ensures out + Escape(s[p..]) == (out + ['\\', s[p]]) + Escape(s[p + 1..])
  {
    assert s[p..][0] == s[p] && s[p..][1..] == s[p + 1..];
  }

  lemma {:induction false} WriteEnd(s: string, out: string)
    ensures out + Escape(s[|s|..]) == out
  {
    assert s[|s|..] == [];
  }

  /** The characters of `a` from `from` up to, not including, the NUL at `end`. */
  ghost predicate Text(a: seq<char>, from: nat, end: nat) {
    from <= end < |a| && a[end] == NUL && forall i :: from <= i < end ==> a[i] != NUL
  }

  /** The next quote or backslash before the terminating NUL, or -1. */
  method FindSpecial(a: array<char>, from: nat, ghost end: nat) returns (q: int)
    requires Text(a[..], from, end)
    ensures -1 <= q < end && (q == -1 ==> forall i :: from <= i < end ==> !Special(a[i]))
    ensures q >= 0 ==> q >= from && Special(a[q]) && forall i :: from <= i < q ==> !Special(a[i])
  {
    q := from;
    while a[q] != NUL
      invariant from <= q <= end && forall i :: from <= i < q ==> !Special(a[i])
      decreases end - q
    {
      if Special(a[q]) { return; }
      q := q + 1;
    }
    q := -1;
  }

  /** Moves the text behind `p`, with its NUL, one place down. */
  method CloseUp(a: array<char>, p: nat, ghost end: nat)
    requires Text(a[..], p, end) && p < end
    modifies a
    ensures Text(a[..], p, end - 1) && a[end] == NUL
    ensures a[..p] == old(a[..p]) && a[p..end - 1] == old(a[p + 1..end])
  {
    var i := p;
    while a[i] != NUL
      invariant p <= i <= end && a[end] == NUL
      invariant forall k :: 0 <= k < p || i <= k < a.Length ==> a[k] == old(a[k])
      invariant forall k :: p <= k < i ==> a[k] == old(a[k + 1])
      decreases end - i
    {
      a[i] := a[i + 1];
      i := i + 1;
    }
    assert i == end;
    assert a[end - 1] == NUL;
  }

  function Prepend(a: string, r: Option<string>): Option<string> { if r.None? then None else Some(a + r.value) }

  lemma {:induction false} PlainPrefix(a: string, b: string)
    requires forall i :: 0 <= i < |a| ==> !Special(a[i])
    ensures Unescape(a + b) == Prepend(a, Unescape(b))
  {
    if a == [] {
      assert a + b == b;
      assert Unescape(b).Some? ==> [] + Unescape(b).value == Unescape(b).value;
    } else {
      PlainPrefix(a[1..], b);
      assert (a + b)[0] == a[0] && (a + b)[1..] == a[1..] + b;
      if Unescape(b).Some? { assert [a[0]] + (a[1..] + Unescape(b).value) == a + Unescape(b).value; }
    }
  }

  /** The reader: unescapes the text behind an opening quote in the buffer it stands in. */
  method ReadQuoted(a: array<char>, start: nat, ghost end: nat) returns (ok: bool, ghost len: nat)
    requires Text(a[..], start, end)
    modifies a
    ensures ok <==> Unescape(old(a[start..end])).Some?
    ensures ok ==> Text(a[..], start, len) && a[start..len] == Unescape(old(a[start..end])).value
    ensures a[..start] == old(a[..start])
  {
    hide Unescape;
    var p := start;
    ghost var e: nat, t := end, a[start..end];
    StartRead(t);
    assert a[start..start] == [];
    while true
      invariant start <= p && Text(a[..], p, e) && a[..start] == old(a[..start])
      invariant Unescape(t) == Prepend(a[start..p], Unescape(a[p..e]))
      invariant Unescape(a[p..e]).Some? ==> forall i :: start <= i < p ==> a[i] != NUL
      decreases e - p
    {
      var q := FindSpecial(a, p, e);
      if q < 0 {
        NoQuote(a[p..e]);
        return false, 0;
      }
      SplitAt(a[..], start, p, q, e);
      if a[q] == '"' {
        a[q] := NUL;
        return true, q;
      }
      ghost var b := a[..];
      CloseUp(a, q, e);
      Escaped(b, a[..], start, q, e);
      p := q + 1;
      e := if q + 1 < e then e - 1 else e;
    }
  }

  lemma {:induction false} StartRead(t: string)
    ensures Unescape(t) == Prepend([], Unescape(t))
  {
    if Unescape(t).Some? { assert [] + Unescape(t).value == Unescape(t).value; }
  }

  lemma {:induction false} NoQuote(t: string)
    requires forall i :: 0 <= i < |t| ==> !Special(t[i])
    ensures Unescape(t).None?
  {
    PlainPrefix(t, []);
    assert t + [] == t;
  }

  /** Skipping plain characters, up to the next special one. */
  lemma {:induction false} SplitAt(a: seq<char>, start: nat, p: nat, q: nat, e: nat)
    requires start <= p <= q < e <= |a| && Special(a[q]) && forall i :: p <= i < q ==> !Special(a[i])
    ensures Prepend(a[start..p], Unescape(a[p..e])) == Prepend(a[start..q], Unescape(a[q..e]))
    ensures Unescape(a[p..e]).Some? <==> Unescape(a[q..e]).Some?
    ensures a[q] == '"' ==> Unescape(a[q..e]) == Some([])
    ensures a[q] == '\\' ==> Unescape(a[q..e]) == (if q + 1 == e then None else Before(a[q + 1], Unescape(a[q + 2..e])))
  {
    assert a[p..e] == a[p..q] + a[q..e];
    PlainPrefix(a[p..q], a[q..e]);
    assert a[start..p] + a[p..q] == a[start..q];
    if Unescape(a[q..e]).Some? {
      assert a[start..p] + (a[p..q] + Unescape(a[q..e]).value) == a[start..q] + Unescape(a[q..e]).value;
    }
    if q + 1 < e { assert a[q..e][2..] == a[q + 2..e]; }
  }

  /** A backslash at `q` was dropped: the character behind it stands for itself. */
  lemma {:induction false} Escaped(b: seq<char>, a: seq<char>, start: nat, q: nat, e: nat)
    requires start <= q < e < |a| == |b| && b[q] == '\\' && a[..q] == b[..q] && a[q..e - 1] == b[q + 1..e]
    requires a[e] == NUL && b[q + 1..e] == b[q..e][1..]
    requires Unescape(b[q..e]) == (if q + 1 == e then None else Before(b[q + 1], Unescape(b[q + 2..e])))
    ensures var e' := if q + 1 < e then e - 1 else e;
      && Prepend(b[start..q], Unescape(b[q..e])) == Prepend(a[start..q + 1], Unescape(a[q + 1..e']))
      && (Unescape(a[q + 1..e']).Some? ==> Unescape(b[q..e]).Some? && q + 1 < e && a[q] == b[q + 1])
  {
    if q + 1 == e {
      assert a[q + 1..e] == [];
    } else {
      assert a[q] == b[q + 1] by { assert a[q..e - 1][0] == b[q + 1..e][0]; }
      assert a[q + 1..e - 1] == a[q..e - 1][1..] && b[q + 2..e] == b[q + 1..e][1..];
      assert a[start..q + 1] == b[start..q] + [a[q]] by {
        assert a[start..q] == a[..q][start..] && b[start..q] == b[..q][start..];
      }
      var r := Unescape(b[q + 2..e]);
      if r.Some? { assert b[start..q] + ([a[q]] + r.value) == a[start..q + 1] + r.value; }
    }
  }

  lemma {:induction false} EscapeChars(s: string, c: char)
    requires c !in s && !Special(c)
    ensures c !in Escape(s)
  {
    if s != [] {
      assert s[0] != c && c !in s[1..];
      EscapeChars(s[1..], c);
    }
  }

  /** An escaped string that is cut off anywhere has no closing quote. */
  lemma {:induction false} CutOff(s: string, k: nat)
    requires k <= |Escape(s)|
    ensures Unescape(Escape(s)[..k]).None?
  {
    if s != [] && k > 0 {
      var t, u := Escape(s)[..k], Escape(s[1..]);
      if Special(s[0]) {
        if k >= 2 {
          CutOff(s[1..], k - 2);
          assert t[2..] == u[..k - 2];
        }
      } else {
        CutOff(s[1..], k - 1);
        assert t[1..] == u[..k - 1];
      }
    }
  }
}
