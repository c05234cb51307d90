/**
 String values on their way through a configuration file: one line each when
 written, a line buffer of fixed size when read (kconfig/confdata.c).
 */
module ConfLines {
  import opened Options
  import opened ConfStrings

  const LINE_SIZE := 1024
  const TAG := "CONFIG_"

  datatype Entry = Entry(name: string, value: string)

  /** Names of symbols. */
  predicate NameOk(name: string) { '=' !in name && '\n' !in name && NUL !in name }

  function Head(name: string): string { TAG + name + "=\"" }

  /** The line for a string symbol. */
  function LineFor(name: string, s: string): string { Head(name) + Escape(s) + "\"\n" }

  /** What one read takes from a file: up to a newline, at most `n` characters. */
  function FirstLine(f: string, n: nat): string {
    if f == [] || n == 0 then [] else if f[0] == '\n' then ['\n'] else [f[0]] + FirstLine(f[1..], n - 1)
  }

  /** Position of `c`, or the length of the text. */
  function IndexOf(t: string, c: char): (i: nat)
    ensures i <= |t| && (i < |t| ==> t[i] == c) && forall k :: 0 <= k < i ==> t[k] != c
  {
    if t == [] || t[0] == c then 0 else 1 + IndexOf(t[1..], c)
  }

  /** Without the newline, and without a carriage return right before it. */
  function Chop(t: string): string {
    var i := IndexOf(t, '\n');
    if i == |t| then t else if i > 0 && t[i - 1] == '\r' then t[..i - 1] else t[..i]
  }

  function Quoted(t: string): Option<string> { if t == [] || t[0] != '"' then None else Unescape(t[1..]) }

  /** What a line sets a string symbol to. */
  function ValueOf(line: string): Option<Entry> {
    if |line| < 7 || line[..7] != TAG then None
    else
      var e := IndexOf(line[7..], '=');
      if e == |line| - 7 then None
      else
        var v := Quoted(Chop(line[7 + e + 1..]));
        if v.None? then None else Some(Entry(line[7..7 + e], v.value))
  }

  function ReadBack(file: string): Option<Entry> { ValueOf(FirstLine(file, LINE_SIZE - 1)) }

  lemma {:induction false} FirstLineIs(f: string, q: nat, n: nat)
    requires q < |f| && f[q] == '\n' && forall i :: 0 <= i < q ==> f[i] != '\n'
    ensures FirstLine(f, n) == f[..if q + 1 < n then q + 1 else n]
  {
    if n > 0 && q > 0 {
      FirstLineIs(f[1..], q - 1, n - 1);
      var k := if q + 1 < n then q + 1 else n;
      assert f[..k] == [f[0]] + f[1..][..k - 1];
    }
  }

  lemma {:induction false} IndexIs(t: string, c: char, i: nat)
    requires i <= |t| && (i < |t| ==> t[i] == c) && forall k :: 0 <= k < i ==> t[k] != c
    ensures IndexOf(t, c) == i
  {
  }

  lemma {:induction false} ValueAfter(name: string, t: string)
    requires NameOk(name)
    ensures ValueOf(TAG + name + "=" + t) == if Quoted(Chop(t)).None? then None
      else Some(Entry(name, Quoted(Chop(t)).value))
  {
    hide Chop, Quoted;
    var line := TAG + name + "=" + t;
    assert line[..7] == TAG && line[7..] == name + "=" + t;
    IndexIs(line[7..], '=', |name|);
    assert line[7..7 + |name|] == name && line[7 + |name| + 1..] == t;
  }

  /** How much of `u` is left when a newline behind it is chopped. */
  function KeptLength(u: string, nl: bool): (k: nat)
    ensures k <= |u|
  {
    if nl && |u| > 0 && u[|u| - 1] == '\r' then |u| - 1 else |u|
  }

  lemma {:induction false} ChopIs(u: string, nl: bool)
    requires '\n' !in u
    ensures Chop("\"" + u + if nl then "\n" else "") == "\"" + u[..KeptLength(u, nl)]
  {
    var t := "\"" + u + if nl then "\n" else "";
    assert forall i :: 0 <= i < |u| ==> t[i + 1] == u[i];
    IndexIs(t, '\n', 1 + |u|);
    if nl && |u| > 0 { assert t[|u|] == u[|u| - 1]; }
  }

  /** A line that begins as the one for `name` and goes on with `u`, with or without a newline. */
  lemma {:induction false} ValueIs(name: string, u: string, nl: bool)
    requires NameOk(name) && '\n' !in u
    ensures var v := Unescape(u[..KeptLength(u, nl)]);
      ValueOf(Head(name) + u + if nl then "\n" else "") == if v.None? then None else Some(Entry(name, v.value))
  {
    hide ValueOf, Chop, Unescape, KeptLength;
    var end := if nl then "\n" else "";
    assert Head(name) + u + end == TAG + name + "=" + ("\"" + u + end);
    ValueAfter(name, "\"" + u + end);
    ChopIs(u, nl);
    assert ("\"" + u[..KeptLength(u, nl)])[1..] == u[..KeptLength(u, nl)];
  }

  /** A line that ends before the opening quote. */
  lemma {:induction false} HeadCut(name: string, k: nat)
    requires NameOk(name) && k < |Head(name)|
    ensures ValueOf(Head(name)[..k]).None?
  {
    var line := Head(name)[..k];
    if k >= 7 {
      if k == |Head(name)| - 1 {
        assert line[7..7 + |name|] == name && line[7 + |name|] == '=';
        IndexIs(line[7..], '=', |name|);
        assert line[7 + |name| + 1..] == [];
      } else {
        assert forall i :: 0 <= i < k - 7 ==> line[7..][i] == name[i];
        IndexIs(line[7..], '=', k - 7);
      }
    }
  }

  /** The string fits into the line buffer and stands on one line. */
  predicate Readable(name: string, s: string) {
    '\n' !in s && |Head(name)| + |Escape(s)| + 1 <= LINE_SIZE - 1
  }

  /** A line cut off inside the escaped string. */
  lemma {:induction false} StringCut(name: string, s: string, k: nat, nl: bool)
    requires NameOk(name) && k <= |Escape(s)| && '\n' !in Escape(s)[..k]
    ensures ValueOf(Head(name) + Escape(s)[..k] + if nl then "\n" else "").None?
  {
    hide ValueOf, Unescape, Escape;
    var u := Escape(s)[..k];
    ValueIs(name, u, nl);
    assert u[..KeptLength(u, nl)] == Escape(s)[..KeptLength(u, nl)];
    CutOff(s, KeptLength(u, nl));
  }

  lemma {:induction false} WholeString(name: string, s: string, nl: bool)
    requires NameOk(name) && '\n' !in s
    ensures ValueOf(Head(name) + (Escape(s) + "\"") + if nl then "\n" else "") == Some(Entry(name, s))
  {
    hide ValueOf, Unescape, Escape;
    var u := Escape(s) + "\"";
    EscapeChars(s, '\n');
    ValueIs(name, u, nl);
    assert u[..|u|] == u && u + [] == u;
    RoundTrip(s, []);
  }

  /** Where a line of the written text ends: the first newline of `s`, or the one behind the closing quote. */
  function LineEnd(name: string, s: string): nat {
    |Head(name)| + if '\n' in s then IndexOf(Escape(s), '\n') else |Escape(s)| + 1
  }

  lemma {:induction false} EscapeKeeps(s: string, c: char)
    requires c in s
    ensures c in Escape(s)
  {
    if s[0] != c { EscapeKeeps(s[1..], c); }
  }

  lemma {:induction false} LineEnds(name: string, s: string, rest: string)
    requires NameOk(name)
    ensures var q, f := LineEnd(name, s), LineFor(name, s) + rest;
      q < |LineFor(name, s)| && f[q] == '\n' && forall i :: 0 <= i < q ==> f[i] != '\n'
    ensures '\n' in s ==>
      LineEnd(name, s) - |Head(name)| < |Escape(s)| && '\n' !in Escape(s)[..LineEnd(name, s) - |Head(name)|]
  {
    hide Escape, IndexOf;
    var h, e, f := Head(name), Escape(s), LineFor(name, s) + rest;
    assert forall i :: 0 <= i < |h| ==> f[i] == h[i];
    assert forall i :: 0 <= i < |e| ==> f[|h| + i] == e[i];
    assert f[|h| + |e|] == '"' && f[|h| + |e| + 1] == '\n';
    HeadPlain(name);
    if '\n' in s { EscapeKeeps(s, '\n'); } else { EscapeChars(s, '\n'); }
  }

  lemma {:induction false} HeadPlain(name: string)
    requires NameOk(name)
    ensures '\n' !in Head(name)
  {
  }

  /** A string comes back under its name exactly if it is readable; otherwise nothing does. */
  lemma {:induction false} ComesBack(name: string, s: string, rest: string)
    requires NameOk(name)
    ensures ReadBack(LineFor(name, s) + rest) == if Readable(name, s) then Some(Entry(name, s)) else None
  {
    hide Escape, FirstLine, ValueOf, IndexOf;
    var h, e, f, q := Head(name), Escape(s), LineFor(name, s) + rest, LineEnd(name, s);
    LineEnds(name, s, rest);
    FirstLineIs(f, q, LINE_SIZE - 1);
    var m := if q + 1 < LINE_SIZE - 1 then q + 1 else LINE_SIZE - 1;
    if m < |h| {
      assert f[..m] == h[..m];
      HeadCut(name, m);
    } else if '\n' in s && m == q + 1 {
      assert f[..m] == h + e[..q - |h|] + "\n";
      StringCut(name, s, q - |h|, true);
    } else if m <= |h| + |e| {
      assert f[..m] == h + e[..m - |h|] + "";
      NoneYet(name, s, m - |h|);
      StringCut(name, s, m - |h|, false);
    } else {
      assert f[..m] == h + (e + "\"") + if m == q + 1 then "\n" else "";
      WholeString(name, s, m == q + 1);
    }
  }

  /** How many characters are written with a backslash before them. */
  function Quotes(s: string): nat {
    if s == [] then 0 else (if s[0] == '"' || s[0] == '\\' then 1 else 0) + Quotes(s[1..])
  }

  /** Quotes and backslashes, and no other characters, get a backslash. */
  lemma {:induction false} EscapeIs(s: string, c: char, t: string)
    ensures Escape(s + [c] + t) == Escape(s) + (if c == '"' || c == '\\' then ['\\', c] else [c]) + Escape(t)
  {
    var u := s + [c] + t;
    if s == [] {
      assert u == [c] + t && u[1..] == t;
    } else {
      assert u[0] == s[0] && u[1..] == s[1..] + [c] + t;
      EscapeIs(s[1..], c, t);
    }
  }

  lemma {:induction false} EscapeLength(s: string)
    ensures |Escape(s)| == |s| + Quotes(s)
  {
    if s != [] { EscapeLength(s[1..]); }
  }

  /**
   The same with its numbers: the line may have 1023 characters, of which 10 go for CONFIG_, the
   equals sign and the quotes.
   */
  lemma {:induction false} LineBound(name: string, s: string, rest: string)
    requires NameOk(name)
    ensures ReadBack("CONFIG_" + name + "=\"" + Escape(s) + "\"\n" + rest) ==
      if '\n' !in s && |name| + |s| + Quotes(s) <= 1013 then Some(Entry(name, s)) else None
  {
    hide ReadBack, Escape, Quotes;
    ComesBack(name, s, rest);
    EscapeLength(s);
    assert "CONFIG_" + name + "=\"" + Escape(s) + "\"\n" + rest == LineFor(name, s) + rest;
  }

  lemma {:induction false} NoneYet(name: string, s: string, k: nat)
    requires NameOk(name) && k <= |Escape(s)| && k <= LineEnd(name, s) - |Head(name)|
    ensures '\n' !in Escape(s)[..k]
  {
    LineEnds(name, s, []);
    if '\n' !in s { EscapeChars(s, '\n'); }
  }

  /** A string with a newline never comes back. */
  lemma {:induction false} NewlineLost(rest: string)
    ensures ReadBack(LineFor("A", "\n") + rest).None?
  {
    assert "\n"[0] == '\n';
    ComesBack("A", "\n", rest);
  }

  /** Reads one line of a text file into the buffer, with a NUL behind it. */
  method GetLine(file: string, a: array<char>) returns (n: nat)
    requires a.Length == LINE_SIZE && NUL !in file
    modifies a
    ensures Text(a[..], 0, n) && a[..n] == FirstLine(file, 1023)
  {
    hide FirstLine;
    n := 0;
    assert file[0..] == file;
    var more := true;
    FirstEnd(file, 0);
    while more && n < LINE_SIZE - 1 && n < |file|
      invariant n <= LINE_SIZE - 1 && n <= |file| && a[..n] == file[..n]
      invariant FirstLine(file, LINE_SIZE - 1) == file[..n] + if more then FirstLine(file[n..], LINE_SIZE - 1 - n)
        else []
      decreases |file| - n, more
    {
      FirstStep(file, n, LINE_SIZE - 1 - n);
      a[n] := file[n];
      if file[n] == '\n' { more := false; }
      n := n + 1;
    }
    if more { FirstEnd(file, n); }
    a[n] := NUL;
  }

  lemma {:induction false} FirstStep(f: string, n: nat, k: nat)
    requires n < |f| && k > 0
    ensures f[..n] + FirstLine(f[n..], k) == f[..n + 1] + if f[n] == '\n' then [] else FirstLine(f[n + 1..], k - 1)
  {
    assert f[n..][1..] == f[n + 1..];
  }

  lemma {:induction false} FirstEnd(f: string, n: nat)
    requires n <= |f|
    ensures f[..0] + FirstLine(f[0..], LINE_SIZE - 1) == FirstLine(f, LINE_SIZE - 1)
    ensures FirstLine(f[n..], 0) == []
    ensures (n == |f| ==> FirstLine(f[n..], LINE_SIZE - 1 - if n < LINE_SIZE then n else 0) == [])
  {
    assert f[0..] == f;
  }

  /** The next `c` before the terminating NUL, or -1. */
  method FindChar(a: array<char>, from: nat, ghost end: nat, c: char) returns (q: int)
    requires Text(a[..], from, end) && c != NUL
    ensures q == if IndexOf(a[from..end], c) == end - from then -1 else from + IndexOf(a[from..end], c)
  {
    hide IndexOf;
    q := from;
    while a[q] != NUL
      invariant from <= q <= end && forall i :: from <= i < q ==> a[i] != c
      decreases end - q
    {
      if a[q] == c {
        IndexIs(a[from..end], c, q - from);
        return;
      }
      q := q + 1;
    }
    IndexIs(a[from..end], c, end - from);
    q := -1;
  }

  /** Cuts the text at its newline, and at a carriage return right before it. */
  method ChopLine(a: array<char>, from: nat, ghost end: nat) returns (ghost end': nat)
    requires Text(a[..], from, end) && from > 0 && a[from - 1] == NUL
    modifies a
    ensures Text(a[..], from, end') && a[from..end'] == Chop(old(a[from..end])) && a[..from] == old(a[..from])
  {
    var q := FindChar(a, from, end, '\n');
    end' := end;
    if q >= 0 {
      a[q] := NUL;
      end' := q;
      if a[q - 1] == '\r' {
        a[q - 1] := NUL;
        end' := q - 1;
      }
    }
  }

  /** Whether the text at `from` begins with the tag of all symbols. */
  method HasTag(a: array<char>, ghost end: nat) returns (r: bool)
    requires Text(a[..], 0, end) && a.Length == LINE_SIZE
    ensures r <==> end >= 7 && a[..7] == TAG
  {
    var i := 0;
    while i < 7
      invariant 0 <= i <= 7 && i <= end && a[..i] == TAG[..i]
    {
      if a[i] != TAG[i] {
        assert end >= 7 ==> a[..7][i] != TAG[i];
        return false;
      }
      i := i + 1;
    }
    assert TAG[..7] == TAG;
    return true;
  }

  /** The value behind the equals sign, which has become a NUL. */
  method ReadValue(a: array<char>, from: nat, ghost end: nat) returns (ok: bool, ghost len: nat)
    requires Text(a[..], from, end) && from > 0 && a[from - 1] == NUL
    modifies a
    ensures ok <==> Quoted(Chop(old(a[from..end]))).Some?
    ensures ok ==> Text(a[..], from + 1, len) && a[from + 1..len] == Quoted(Chop(old(a[from..end]))).value
    ensures a[..from] == old(a[..from])
  {
    hide Unescape, Chop;
    ok, len := false, 0;
    ghost var end' := ChopLine(a, from, end);
    ghost var t := a[from..end'];
    if a[from] != '"' { return; }
    assert a[from + 1..end'] == t[1..];
    ghost var front := a[..from];
    ok, len := ReadQuoted(a, from + 1, end');
    assert a[..from] == a[..from + 1][..from];
  }

  /** Reads the line of a string symbol: the name up to `e`, the value from `start` on, both ended by a NUL. */
  method Load(file: string, a: array<char>) returns (n: nat, ok: bool, e: nat, start: nat, ghost len: nat)
    requires a.Length == LINE_SIZE && NUL !in file
    modifies a
    ensures n == |FirstLine(file, LINE_SIZE - 1)|
    ensures ok <==> ReadBack(file).Some?
    ensures ok ==> 7 <= e < start && Text(a[..], 7, e) && a[7..e] == ReadBack(file).value.name
    ensures ok ==> Text(a[..], start, len) && a[start..len] == ReadBack(file).value.value
  {
    hide FirstLine, IndexOf, Chop, Quoted;
    ok, e, start, len := false, 0, 0, 0;
    n := GetLine(file, a);
    ghost var line := a[..n];
    var tag := HasTag(a, n);
    if !tag { return; }
    assert a[7..n] == line[7..];
    var q := FindChar(a, 7, n, '=');
    if q < 0 { return; }
    a[q] := NUL;
    assert a[q + 1..n] == line[q + 1..];
    ghost var front := a[..q + 1];
    assert forall i :: 7 <= i < q ==> front[i] == line[i];
    assert front[7..q] == line[7..q] && front[q] == NUL;
    ok, len := ReadValue(a, q + 1, n);
    e, start := q, q + 2;
    assert a[7..q] == front[7..q] && a[q] == front[q];
  }

  /** Written and read back: the value comes back, under its name, exactly if it is readable. */
  method WriteThenRead(name: string, s: string, a: array<char>) returns (ok: bool, e: nat, start: nat, ghost len: nat)
    requires NameOk(name) && NUL !in s && a.Length == LINE_SIZE
    modifies a
    ensures ok <==> Readable(name, s)
    ensures ok ==> 7 <= e < start && Text(a[..], 7, e) && a[7..e] == name
    ensures ok ==> Text(a[..], start, len) && a[start..len] == s
  {
    hide ReadBack, Escape;
    var out := WriteEscaped(s);
    var file := Head(name) + out + "\"\n";
    EscapeChars(s, NUL);
    HeadFree(name);
    ComesBack(name, s, []);
    assert file + [] == file;
    var n;
    n, ok, e, start, len := Load(file, a);
  }

  lemma {:induction false} HeadFree(name: string)
    requires NameOk(name)
    ensures NUL !in Head(name)
  {
  }
}
