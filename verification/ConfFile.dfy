/**
 Whole configuration files: what a reader of string symbols finds in a file of
 written settings, line by line (kconfig/confdata.c).
 */
module ConfFiles {
  import opened Options
  import opened ConfStrings
  import opened ConfLines

  const ROOM := LINE_SIZE - 1

  lemma {:induction false} LineSize(f: string)
    requires f != []
    ensures 0 < |FirstLine(f, ROOM)| <= |f| && FirstLine(f, ROOM) == f[..|FirstLine(f, ROOM)|]
  {
    LinePrefix(f, ROOM);
  }

  lemma {:induction false} LinePrefix(f: string, n: nat)
    ensures |FirstLine(f, n)| <= |f| && FirstLine(f, n) == f[..|FirstLine(f, n)|]
  {
    if f != [] && n > 0 && f[0] != '\n' {
      LinePrefix(f[1..], n - 1);
      var k := |FirstLine(f[1..], n - 1)|;
      assert f[..k + 1] == [f[0]] + f[1..][..k];
    }
  }

  function Listed(e: Option<Entry>): seq<Entry> { if e.None? then [] else [e.value] }

  /** The settings a file makes, in order: one read after the other, until nothing is left. */
  function ReadAll(f: string): seq<Entry>
    decreases |f|
  {
    if f == [] then []
    else
      LineSize(f);
      Listed(ReadBack(f)) + ReadAll(f[|FirstLine(f, ROOM)|..])
  }

  function WriteAll(es: seq<Entry>): string {
    if es == [] then [] else LineFor(es[0].name, es[0].value) + WriteAll(es[1..])
  }

  /** Text of a quoted string up to the end of the line: quotes inside it stand behind a backslash. */
  ghost predicate Inside(w: string) {
    && |w| >= 2 && w[|w| - 2] == '"' && w[|w| - 1] == '\n'
    && forall i :: 0 < i < |w| - 2 && w[i] == '"' ==> w[i - 1] == '\\'
  }

  lemma {:induction false} EscapedInside(s: string)
    ensures Inside(Escape(s) + "\"\n") && (Escape(s) != [] ==> Escape(s)[0] != '"')
  {
    var w := Escape(s) + "\"\n";
    if s != [] {
      EscapedInside(s[1..]);
      var v := Escape(s[1..]) + "\"\n";
      var k := |w| - |v|;
      assert w[k..] == v;
      forall i | 0 < i < |w| - 2 && w[i] == '"' ensures w[i - 1] == '\\' {
        if i > k { assert w[i] == v[i - k] && w[i - 1] == v[i - k - 1]; }
      }
    }
  }

  /** A line within such a text sets nothing: an equals sign is never followed by a quote with a string behind it. */
  lemma {:induction false} PieceSetsNothing(w: string, k: nat, n: nat)
    requires Inside(w) && k < n <= |w|
    ensures ValueOf(w[k..n]).None?
  {
    var line := w[k..n];
    if |line| >= 7 && line[..7] == TAG {
      var e := IndexOf(line[7..], '=');
      if e < |line| - 7 {
        var i := k + 7 + e + 1;
        assert line[7..][e] == w[i - 1] == '=';
        assert line[7 + e + 1..] == w[i..n];
        if i < n && w[i] == '"' { QuoteAtEnd(w, i, n); }
      }
    }
  }

  lemma {:induction false} QuoteAtEnd(w: string, i: nat, n: nat)
    requires Inside(w) && 0 < i < n <= |w| && w[i] == '"' && w[i - 1] == '='
    ensures Quoted(Chop(w[i..n])).None?
  {
    assert i == |w| - 2;
    var t := w[i..n];
    assert t == "\"" || t == "\"\n";
    IndexIs("\"\n", '\n', 1);
    IndexIs("\"", '\n', 1);
    assert "\"\n"[..1] == "\"";
  }

  /** The first line of a text that ends in a newline stays within it. */
  lemma {:induction false} LineWithin(w: string, rest: string)
    requires w != [] && w[|w| - 1] == '\n'
    ensures var n := |FirstLine(w + rest, ROOM)|; 0 < n <= |w| && FirstLine(w + rest, ROOM) == w[..n]
  {
    LineSize(w + rest);
    NewlineStops(w, rest, ROOM);
    var n := |FirstLine(w + rest, ROOM)|;
    assert (w + rest)[..n] == w[..n];
  }

  lemma {:induction false} NewlineStops(w: string, rest: string, n: nat)
    requires w != [] && w[|w| - 1] == '\n'
    ensures |FirstLine(w + rest, n)| <= |w|
  {
    if n > 0 && w[0] != '\n' {
      assert (w + rest)[1..] == w[1..] + rest;
      NewlineStops(w[1..], rest, n - 1);
    }
  }

  lemma {:induction false} InsideEnd(w: string, k: nat)
    requires Inside(w) && k < |w|
    ensures w[k..] != [] && w[k..][|w| - k - 1] == '\n'
  {
  }

  lemma {:induction false} ReadStep(f: string)
    requires f != []
    ensures |FirstLine(f, ROOM)| <= |f|
    ensures ReadAll(f) == Listed(ValueOf(FirstLine(f, ROOM))) + ReadAll(f[|FirstLine(f, ROOM)|..])
  {
    LineSize(f);
  }

  /** From any place inside a quoted string on, nothing is set up to the end of its line. */
  lemma {:induction false} RestSetsNothing(w: string, k: nat, rest: string)
    requires Inside(w) && k <= |w|
    ensures ReadAll(w[k..] + rest) == ReadAll(rest)
    decreases |w| - k
  {
    hide ValueOf, FirstLine, ReadAll, Inside;
    if k == |w| {
      assert w[k..] + rest == rest;
    } else {
      var f := w[k..] + rest;
      InsideEnd(w, k);
      LineWithin(w[k..], rest);
      var n := |FirstLine(f, ROOM)|;
      assert w[k..][..n] == w[k..k + n];
      PieceSetsNothing(w, k, k + n);
      assert f[n..] == w[k + n..] + rest;
      RestSetsNothing(w, k + n, rest);
      ReadStep(f);
    }
  }

  /**
   The name that the reader takes from a line beginning with `u`.  A name too long for the line
   buffer comes in pieces, and only the last one, if it begins with the tag, is followed by a value.
   */
  function NameIn(u: string): Option<string>
    decreases |u|
  {
    if |u| + 2 <= ROOM then (if |u| >= 7 && u[..7] == TAG then Some(u[7..]) else None)
    else if |u| >= ROOM then NameIn(u[ROOM..])
    else None
  }

  /** What the line of one setting sets. */
  function SetBy(u: string, s: string): seq<Entry> {
    var n := NameIn(u);
    if n.Some? && Readable(n.value, s) then [Entry(n.value, s)] else []
  }

  function Tail(s: string): string { Escape(s) + "\"\n" }

  lemma {:induction false} LineCovers(x: string, y: string, n: nat)
    requires '\n' !in x
    ensures |x| <= n ==> |FirstLine(x + y, n)| >= |x|
    ensures |x| >= n ==> FirstLine(x + y, n) == x[..n]
  {
    if x != [] && n > 0 {
      assert (x + y)[1..] == x[1..] + y && (x + y)[0] == x[0];
      LineCovers(x[1..], y, n - 1);
      assert |x| >= n ==> x[..n] == [x[0]] + x[1..][..n - 1];
    }
  }

  /** The value begins in the line: what is behind that line is inside the string. */
  lemma {:induction false} ValueLine(u: string, s: string, rest: string)
    requires NameOk(u) && |u| + 2 <= ROOM
    ensures var f := u + "=\"" + Tail(s) + rest;
      f != [] && ReadAll(f) == Listed(ReadBack(f)) + ReadAll(rest)
  {
    hide ReadAll, ValueOf, FirstLine, Escape, Inside;
    var x, w := u + "=\"", Tail(s);
    var f := x + w + rest;
    assert f == x + (w + rest) == (x + w) + rest;
    LineCovers(x, w + rest, ROOM);
    EscapedInside(s);
    InsideEnd(w, 0);
    assert (x + w)[|x + w| - 1] == w[|w| - 1] == w[0..][|w| - 1];
    LineWithin(x + w, rest);
    var n := |FirstLine(f, ROOM)|;
    assert f[n..] == w[n - |x|..] + rest;
    RestSetsNothing(w, n - |x|, rest);
    ReadStep(f);
  }

  lemma {:induction false} NoTag(u: string, line: string)
    requires NameOk(u) && u + "=\"" <= line && (|u| < 7 || u[..7] != TAG)
    ensures ValueOf(line).None?
  {
    if |u| < 7 {
      assert line[|u|] == (u + "=\"")[|u|] == '=';
      assert |line| >= 7 ==> line[..7][|u|] == '=';
    } else {
      assert line[..7] == (u + "=\"")[..7] == u[..7];
    }
  }

  lemma {:induction false} NoValue(u: string, line: string)
    requires NameOk(u) && (line <= u || line == u + "=")
    ensures ValueOf(line).None?
  {
    hide Chop;
    if |line| >= 7 {
      var t := line[7..];
      var e := IndexOf(t, '=');
      if e < |t| {
        assert t[e] == line[7 + e] == '=';
        assert line == u + "=" && 7 + e == |u|;
        assert line[7 + e + 1..] == [];
        EmptyChop();
      }
    }
  }

  lemma {:induction false} EmptyChop()
    ensures Quoted(Chop([])).None?
  {
  }

  /** One setting, with any text behind it: at most that setting is made, and reading goes on behind its line. */
  lemma {:induction false} NameRead(u: string, s: string, rest: string)
    requires NameOk(u)
    ensures ReadAll(u + "=\"" + Tail(s) + rest) == SetBy(u, s) + ReadAll(rest)
    decreases |u|
  {
    hide ReadAll, ValueOf, FirstLine, Inside, Readable, Escape;
    var f := u + "=\"" + Tail(s) + rest;
    if |u| + 2 <= ROOM {
      ValueLine(u, s, rest);
      ShortName(u, s, rest);
    } else {
      PieceOfName(u, s, rest);
      if |u| >= ROOM {
        NameRead(u[ROOM..], s, rest);
      } else {
        var w := "\"" + Tail(s);
        QuoteFirst(s);
        RestSetsNothing(w, 0, rest);
        assert w[0..] + rest == "\"" + Tail(s) + rest;
      }
    }
  }

  lemma {:induction false} ShortName(u: string, s: string, rest: string)
    requires NameOk(u) && |u| + 2 <= ROOM
    ensures Listed(ReadBack(u + "=\"" + Tail(s) + rest)) == SetBy(u, s)
  {
    hide ValueOf, FirstLine, Readable, Escape;
    var f := u + "=\"" + Tail(s) + rest;
    if |u| >= 7 && u[..7] == TAG {
      var n := u[7..];
      assert u == TAG + n;
      assert f == LineFor(n, s) + rest;
      ComesBack(n, s, rest);
    } else {
      var x, y := u + "=\"", Tail(s) + rest;
      assert f == x + y;
      LineCovers(x, y, ROOM);
      LineSize(f);
      NoTag(u, FirstLine(f, ROOM));
    }
  }

  lemma {:induction false} QuoteFirst(s: string)
    ensures Inside("\"" + Tail(s))
  {
    hide Escape;
    EscapedInside(s);
    var v := Tail(s);
    var w := "\"" + v;
    forall i | 0 < i < |w| - 2 && w[i] == '"' ensures w[i - 1] == '\\' {
      assert w[i] == v[i - 1];
      if i > 1 { assert w[i - 1] == v[i - 2]; }
    }
  }

  /** A line that a name fills sets nothing. */
  lemma {:induction false} PieceOfName(u: string, s: string, rest: string)
    requires NameOk(u) && |u| + 2 > ROOM
    ensures ReadAll(u + "=\"" + Tail(s) + rest) ==
      ReadAll(if |u| >= ROOM then u[ROOM..] + "=\"" + Tail(s) + rest else "\"" + Tail(s) + rest)
  {
    hide ReadAll, ValueOf, FirstLine, Escape;
    var f, x, y := u + "=\"" + Tail(s) + rest, u + "=", "\"" + Tail(s) + rest;
    assert f == x + y;
    LineCovers(x, y, ROOM);
    NoValue(u, x[..ROOM]);
    ReadStep(f);
    if |u| >= ROOM {
      assert f[ROOM..] == u[ROOM..] + "=\"" + Tail(s) + rest;
    } else {
      assert x[..ROOM] == x && f[ROOM..] == y;
    }
  }

  lemma {:induction false} LineBack(name: string, s: string, rest: string)
    requires NameOk(name)
    ensures ReadAll(LineFor(name, s) + rest) == SetBy(TAG + name, s) + ReadAll(rest)
  {
    hide ReadAll, SetBy;
    var u := TAG + name;
    NameRead(u, s, rest);
    assert LineFor(name, s) + rest == u + "=\"" + Tail(s) + rest;
  }

  ghost predicate Named(es: seq<Entry>) { forall i :: 0 <= i < |es| ==> NameOk(es[i].name) }

  function AllSet(es: seq<Entry>): seq<Entry> {
    if es == [] then [] else SetBy(TAG + es[0].name, es[0].value) + AllSet(es[1..])
  }

  /** Reading a written file makes, in order, what each of its settings makes on its own. */
  lemma {:induction false} FileBack(es: seq<Entry>)
    requires Named(es)
    ensures ReadAll(WriteAll(es)) == AllSet(es)
  {
    hide SetBy;
    if es != [] {
      LineBack(es[0].name, es[0].value, WriteAll(es[1..]));
      FileBack(es[1..]);
    }
  }

  /** A setting is read under its own name exactly if the beginning of the line fits into the buffer. */
  lemma {:induction false} OwnName(name: string)
    ensures |Head(name)| <= ROOM <==> NameIn(TAG + name) == Some(name)
  {
    var u := TAG + name;
    assert u[..7] == TAG && u[7..] == name;
    if |u| >= ROOM { NameShorter(u[ROOM..]); }
  }

  lemma {:induction false} NameShorter(u: string)
    ensures NameIn(u).Some? ==> |NameIn(u).value| < |u|
    decreases |u|
  {
    if |u| >= ROOM { NameShorter(u[ROOM..]); }
  }

  /** A single setting comes back as it is exactly if it is readable. */
  lemma {:induction false} OwnEntry(e: Entry)
    ensures |SetBy(TAG + e.name, e.value)| <= 1
    ensures SetBy(TAG + e.name, e.value) == [e] <==> Readable(e.name, e.value)
  {
    hide NameIn, Escape;
    OwnName(e.name);
  }

  ghost predicate AllReadable(es: seq<Entry>) { forall i :: 0 <= i < |es| ==> Readable(es[i].name, es[i].value) }

  /** A file comes back as it was written exactly if every setting in it is readable. */
  lemma {:induction false} FileExact(es: seq<Entry>)
    requires Named(es)
    ensures ReadAll(WriteAll(es)) == es <==> AllReadable(es)
  {
    FileBack(es);
    SetExact(es);
  }

  lemma {:induction false} SetExact(es: seq<Entry>)
    ensures |AllSet(es)| <= |es| && (AllSet(es) == es <==> AllReadable(es))
  {
    hide SetBy, Readable;
    if es != [] {
      OwnEntry(es[0]);
      SetExact(es[1..]);
      var a, b := SetBy(TAG + es[0].name, es[0].value), AllSet(es[1..]);
      assert es == [es[0]] + es[1..];
      HeadSame(a, b, es);
    }
  }

  lemma {:induction false} HeadSame<T>(a: seq<T>, b: seq<T>, q: seq<T>)
    requires q != [] && |a| <= 1 && |b| < |q|
    ensures a + b == q <==> a == [q[0]] && b == q[1..]
  {
    if a + b == q {
      assert a[0] == (a + b)[0] && b == (a + b)[1..];
    }
  }

  /** A name that is too long can end in the name of another symbol, which is set instead. */
  lemma {:induction false} OtherSetExample(filler: string)
    requires |filler| == ROOM - 7
    ensures SetBy(TAG + (filler + "CONFIG_B"), "x") == [Entry("B", "x")]
  {
    var u := TAG + (filler + "CONFIG_B");
    assert u[ROOM..] == "CONFIG_B" && "CONFIG_B"[..7] == TAG && "CONFIG_B"[7..] == "B";
    assert NameIn("CONFIG_B") == Some("B");
    assert Escape("x") == "x" by { assert "x"[1..] == []; }
  }

  /** Reads a whole file, line by line. */
  method LoadAll(file: string) returns (es: seq<Entry>)
    requires NUL !in file
    ensures es == ReadAll(file)
  {
    hide ReadAll, ValueOf, FirstLine;
    es := [];
    var a := new char[LINE_SIZE];
    var k := 0;
    assert file[0..] == file;
    while k < |file|
      invariant 0 <= k <= |file| && es + ReadAll(file[k..]) == ReadAll(file)
    {
      ghost var es0 := es;
      LineSize(file[k..]);
      ReadStep(file[k..]);
      var n, ok, e, start;
      ghost var len;
      n, ok, e, start, len := Load(file[k..], a);
      if ok {
        var name := TextAt(a, 7, e);
        var value := TextAt(a, start, len);
        es := es + [Entry(name, value)];
      }
      assert file[k..][n..] == file[k + n..];
      assert es0 + (Listed(ReadBack(file[k..])) + ReadAll(file[k + n..])) == es + ReadAll(file[k + n..]);
      k := k + n;
    }
    assert file[k..] == [] && ReadAll([]) == [] by { NothingRead(); }
  }

  lemma {:induction false} NothingRead()
    ensures ReadAll([]) == []
  {
  }

  /** The text from `from` on, up to its NUL. */
  method TextAt(a: array<char>, from: nat, ghost end: nat) returns (t: string)
    requires Text(a[..], from, end)
    ensures t == a[from..end]
  {
    var q := from;
    while a[q] != NUL
      invariant from <= q <= end
      decreases end - q
    {
      q := q + 1;
    }
    t := a[from..q];
  }

  method SaveAll(es: seq<Entry>) returns (file: string)
    ensures file == WriteAll(es)
  {
    hide WriteAll, Escape;
    file := [];
    var i := 0;
    assert es[0..] == es;
    while i < |es|
      invariant 0 <= i <= |es| && file + WriteAll(es[i..]) == WriteAll(es)
    {
      WriteStep(es, i, file);
      var out := WriteEscaped(es[i].value);
      file := file + (Head(es[i].name) + out + "\"\n");
      i := i + 1;
    }
    assert es[i..] == [] && WriteAll([]) == [] by { NothingWritten(); }
  }

  lemma {:induction false} NothingWritten()
    ensures WriteAll([]) == []
  {
  }

  lemma {:induction false} WriteStep(es: seq<Entry>, i: int, file: string)
    requires 0 <= i < |es|
    ensures file + WriteAll(es[i..]) == (file + LineFor(es[i].name, es[i].value)) + WriteAll(es[i + 1..])
  {
    assert es[i..][0] == es[i] && es[i..][1..] == es[i + 1..];
  }

  /** Saved and loaded: the same settings exactly if all of them are readable. */
  method SaveThenLoad(es: seq<Entry>) returns (back: seq<Entry>)
    requires Named(es) && forall i :: 0 <= i < |es| ==> NUL !in es[i].value
    ensures back == AllSet(es)
    ensures back == es <==> forall i :: 0 <= i < |es| ==>
      '\n' !in es[i].value && |es[i].name| + |es[i].value| + Quotes(es[i].value) <= 1013
  {
    hide AllSet, ReadAll, WriteAll, Readable, Quotes;
    var file := SaveAll(es);
    NoNul(es);
    FileBack(es);
    FileExact(es);
    forall i | 0 <= i < |es|
      ensures Readable(es[i].name, es[i].value) <==>
        '\n' !in es[i].value && |es[i].name| + |es[i].value| + Quotes(es[i].value) <= 1013
    {
      ReadableIs(es[i].name, es[i].value);
    }
    back := LoadAll(file);
  }

  lemma {:induction false} ReadableIs(name: string, s: string)
    ensures Readable(name, s) <==> '\n' !in s && |name| + |s| + Quotes(s) <= 1013
  {
    hide Escape, Quotes;
    EscapeLength(s);
  }

  lemma {:induction false} NoNul(es: seq<Entry>)
    requires Named(es) && forall i :: 0 <= i < |es| ==> NUL !in es[i].value
    ensures NUL !in WriteAll(es)
  {
    if es != [] {
      HeadFree(es[0].name);
      EscapeChars(es[0].value, NUL);
      NoNul(es[1..]);
    }
  }
}
