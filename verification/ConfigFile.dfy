/** ew_controller/ew_controller.c: cfg_leer, cfg_guardar and the value replacement of on_btn_cfg_save.
    A file is the string of its bytes. */
module ConfigFile {
  import opened ConfigLine

  /** The buffer of cfg_leer holds this many characters and the closing NUL. */
  const ROOM: nat := 1023

  const NUL: char := '\0'

  // ----- fgets

  /** The end of the piece that fgets reads from `b`, having taken `k` characters so far. */
  function ChunkEnd(b: string, k: nat): (e: nat)
    requires k <= |b| && k <= ROOM
    ensures k <= e <= |b| && e <= ROOM && (k == 0 && b != "" ==> e > 0)
    ensures forall i :: k <= i < e - 1 ==> b[i] != '\n'
    ensures e == |b| || e == ROOM || (e > k && b[e - 1] == '\n')
    decreases ROOM - k
  {
    if k == |b| || k == ROOM then k
    else if b[k] == '\n' then k + 1
    else ChunkEnd(b, k + 1)
  }

  /** The part of a buffer that counts as a C string. */
  function CString(c: string): (s: string)
    ensures s <= c && NUL !in s
  {
    if c == "" || c[0] == NUL then "" else [c[0]] + CString(c[1..])
  }

  predicate EndsLine(c: string) { '\n' in CString(c) }

  /** The line in a chunk: the C string, cut at its newline. */
  function LineIn(c: string): (s: string)
    ensures NUL !in s && '\n' !in s
  {
    BeforeNewline(CString(c))
  }

  function BeforeNewline(c: string): (s: string)
    ensures s <= c && '\n' !in s && (s == c || c[|s|] == '\n') && ('\n' !in c ==> s == c)
  {
    if c == "" || c[0] == '\n' then "" else [c[0]] + BeforeNewline(c[1..])
  }

  // ----- reading and writing a whole file

  function Lines(b: string): seq<Line>
    decreases |b|
  {
    if b == "" then []
    else var e := ChunkEnd(b, 0); [Parse(LineIn(b[..e]))] + Lines(b[e..])
  }

  /** Whether the last chunk ended with a newline. */
  function LastNewline(b: string): bool
    decreases |b|
  {
    b == "" ||
    var e := ChunkEnd(b, 0);
    if e == |b| then EndsLine(b) else LastNewline(b[e..])
  }

  function Saved(ls: seq<Line>, lastNewline: bool): string {
    if ls == [] then ""
    else Render(ls[0]) + (if |ls| == 1 && !lastNewline then "" else "\n") + Saved(ls[1..], lastNewline)
  }

  // ----- saving what was loaded

  predicate NewlineWithin(b: string, i: nat)
    requires i + 1023 <= |b|
  {
    exists j :: i <= j < i + 1023 && b[j] == '\n'
  }

  /** Any stretch of `1023` characters with something after it holds a newline: a line with its newline
      fits the buffer, and so does an unfinished last line. */
  predicate ShortLines(b: string) {
    forall i: nat :: i + 1023 < |b| ==> NewlineWithin(b, i)
  }

  lemma CStringWhole(c: string)
    requires NUL !in c
    ensures CString(c) == c
  {
    if c != "" {
      CStringWhole(c[1..]);
    }
  }

  /** A chunk without NUL is its line, with or without the newline at its end. */
  lemma ChunkIsLine(c: string)
    requires c != "" && NUL !in c && forall i :: 0 <= i < |c| - 1 ==> c[i] != '\n'
    ensures EndsLine(c) <==> c[|c| - 1] == '\n'
    ensures c == LineIn(c) + if EndsLine(c) then "\n" else ""
  {
    hide BeforeNewline, CString;
    CStringWhole(c);
    var x := c[..|c| - 1];
    if c[|c| - 1] == '\n' {
      assert c == x + "\n";
    }
  }

  lemma NextChunk(b: string) returns (e: nat, c: string, rest: string)
    requires b != "" && NUL !in b
    ensures e == ChunkEnd(b, 0) && 0 < e <= |b| && c == b[..e] && rest == b[e..] && b == c + rest
    ensures NUL !in c && NUL !in rest && c == LineIn(c) + if EndsLine(c) then "\n" else ""
    ensures EndsLine(c) <==> c[|c| - 1] == '\n'
    ensures EndsLine(c) || rest == "" || e == ROOM
  {
    e := ChunkEnd(b, 0);
    c := b[..e];
    rest := b[e..];
    ChunkIsLine(c);
  }

  lemma ShortLinesRest(b: string, e: nat)
    requires ShortLines(b) && e <= |b|
    ensures ShortLines(b[e..])
  {
    var r := b[e..];
    forall i: nat | i + ROOM < |r|
      ensures NewlineWithin(r, i)
    {
      assert NewlineWithin(b, e + i);
      var j :| e + i <= j < e + i + ROOM && b[j] == '\n';
      assert r[j - e] == '\n';
    }
  }

  /** A short line is never cut. */
  lemma ChunkEndsLine(b: string, e: nat)
    requires b != "" && ShortLines(b) && e == ChunkEnd(b, 0) && e < |b|
    ensures b[e - 1] == '\n'
  {
    if e == ROOM {
      assert NewlineWithin(b, 0);
    }
  }

  lemma {:induction false} SaveLoad(b: string)
    requires NUL !in b && ShortLines(b)
    ensures Saved(Lines(b), LastNewline(b)) == b
    decreases |b|
  {
    hide Render, Parse, ShortLines, EndsLine, LineIn, ChunkEnd;
    if b != "" {
      var e, c, rest := NextChunk(b);
      RenderParse(LineIn(c));
      ShortLinesRest(b, e);
      SaveLoad(rest);
      if e < |b| {
        ChunkEndsLine(b, e);
        SavedCons(LineIn(c), Lines(rest), LastNewline(rest), c);
      } else {
        assert c == b;
        SavedOne(LineIn(c), EndsLine(c));
      }
    }
  }

  lemma SavedOne(s: string, nl: bool)
    ensures Saved([Parse(s)], nl) == s + if nl then "\n" else ""
  {
    RenderParse(s);
    hide Parse, Render;
    assert Saved([], nl) == "";
  }

  lemma SavedCons(s: string, ls: seq<Line>, nl: bool, c: string)
    requires ls != [] && c == s + "\n"
    ensures Saved([Parse(s)] + ls, nl) == c + Saved(ls, nl)
  {
    RenderParse(s);
    hide Parse, Render;
    assert ([Parse(s)] + ls)[1..] == ls;
  }

  lemma {:induction false} SavedHasNoNul(b: string)
    ensures NUL !in Saved(Lines(b), LastNewline(b))
    ensures b != "" ==> Lines(b) != []
    decreases |b|
  {
    hide Render, Parse, EndsLine, LineIn, ChunkEnd;
    if b != "" {
      var e := ChunkEnd(b, 0);
      SavedHasNoNul(b[e..]);
      RenderParse(LineIn(b[..e]));
    }
  }

  lemma ShortLinesBefore(b: string, e: nat)
    requires 0 < e <= |b| && e <= ROOM && b[e - 1] == '\n' && ShortLines(b[e..])
    ensures ShortLines(b)
  {
    var r := b[e..];
    forall i: nat | i + ROOM < |b|
      ensures NewlineWithin(b, i)
    {
      if i >= e {
        assert NewlineWithin(r, i - e);
        var j :| i - e <= j < i - e + ROOM && r[j] == '\n';
        assert b[j + e] == '\n';
      } else {
        assert i <= e - 1 < i + ROOM;
      }
    }
  }

  /** A line that was cut gains a newline, and nothing is lost to make up for it. */
  lemma {:induction false} SaveGrows(b: string)
    requires NUL !in b
    ensures var s := Saved(Lines(b), LastNewline(b)); |s| >= |b| && (!ShortLines(b) ==> |s| > |b|)
    decreases |b|
  {
    hide Render, Parse, ShortLines, EndsLine, LineIn, ChunkEnd;
    if b != "" {
      var e, c, rest := NextChunk(b);
      if rest == "" {
        assert c == b;
        SavedOne(LineIn(c), EndsLine(c));
        OneChunkIsShort(b, e);
      } else {
        SaveGrows(rest);
        SavedHasNoNul(rest);
        SavedCons(LineIn(c), Lines(rest), LastNewline(rest), LineIn(c) + "\n");
        if EndsLine(c) && ShortLines(rest) {
          OneChunkIsShort(b, e);
          ShortLinesBefore(b, e);
        }
      }
    } else {
      EmptyIsShort();
    }
  }

  lemma OneChunkIsShort(b: string, e: nat)
    requires e == ChunkEnd(b, 0)
    ensures e <= ROOM && (e == |b| ==> ShortLines(b))
  {}

  lemma EmptyIsShort()
    ensures ShortLines("")
  {}

  /** Saving what was loaded gives back every byte exactly when there is no NUL and no line too long for
      the buffer. */
  lemma {:induction false} SaveLoadIff(b: string)
    ensures Saved(Lines(b), LastNewline(b)) == b <==> NUL !in b && ShortLines(b)
  {
    SavedHasNoNul(b);
    if NUL !in b {
      SaveGrows(b);
      if ShortLines(b) {
        SaveLoad(b);
      }
    }
  }

  // ----- loading what was saved

  predicate LineStorable(l: Line, atEnd: bool) {
    var s := Render(l);
    WellFormed(l) && NUL !in s && '\n' !in s && if atEnd then 0 < |s| <= 1023 else |s| < 1023
  }

  /** Every line is one that parsing can give and fits the buffer with its newline. */
  predicate Storable(ls: seq<Line>, lastNewline: bool) {
    (ls == [] ==> lastNewline) &&
    forall i :: 0 <= i < |ls| ==> LineStorable(ls[i], i == |ls| - 1 && !lastNewline)
  }

  lemma FirstLine(s: string, rest: string)
    requires NUL !in s && '\n' !in s && |s| < ROOM
    ensures var b := s + "\n" + rest; var e := |s| + 1;
      ChunkEnd(b, 0) == e && b[e..] == rest && LineIn(b[..e]) == s && EndsLine(b[..e])
  {
    var b := s + "\n" + rest;
    var e := |s| + 1;
    assert b[e - 1] == '\n';
    assert b[..e] == s + "\n";
    CStringWhole(s + "\n");
  }

  lemma LastLine(s: string)
    requires NUL !in s && '\n' !in s && 0 < |s| <= ROOM
    ensures ChunkEnd(s, 0) == |s| && LineIn(s) == s && !EndsLine(s)
  {
    CStringWhole(s);
  }

  lemma {:induction false} LoadSaved(ls: seq<Line>, nl: bool)
    requires Storable(ls, nl)
    ensures var b := Saved(ls, nl); Lines(b) == ls && LastNewline(b) == nl
    decreases |ls|
  {
    hide Render, Parse, EndsLine, LineIn, ChunkEnd, WellFormed;
    if ls != [] {
      var l, rest := ls[0], ls[1..];
      var s, t := Render(l), Saved(rest, nl);
      assert LineStorable(l, |ls| == 1 && !nl);
      assert ls == [l] + rest;
      ParseRender(l);
      if |ls| == 1 && !nl {
        LastLine(s);
        assert s + "" + t == s && s[..|s|] == s && s[|s|..] == "";
      } else {
        forall i | 0 <= i < |rest|
          ensures LineStorable(rest[i], i == |rest| - 1 && !nl)
        {
          assert rest[i] == ls[i + 1];
        }
        LoadSaved(rest, nl);
        FirstLine(s, t);
        LoadCons(s, t, rest, nl);
      }
    }
  }

  lemma LoadCons(s: string, t: string, rest: seq<Line>, nl: bool)
    requires NUL !in s && '\n' !in s && |s| < ROOM
    requires Lines(t) == rest && LastNewline(t) == nl && (t == "" ==> nl)
    ensures var b := s + "\n" + t; Lines(b) == [Parse(s)] + rest && LastNewline(b) == nl
  {
    hide Render, Parse, EndsLine, LineIn, ChunkEnd;
    FirstLine(s, t);
    var b := s + "\n" + t;
    assert t == "" ==> b[..|s| + 1] == b;
  }

  /** What is loaded from a file of short lines can be stored again. */
  lemma {:induction false} LoadedIsStorable(b: string)
    requires NUL !in b && ShortLines(b)
    ensures Storable(Lines(b), LastNewline(b))
    decreases |b|
  {
    hide Render, Parse, ShortLines, EndsLine, LineIn, ChunkEnd, WellFormed;
    if b != "" {
      var e, c, rest := NextChunk(b);
      var s := LineIn(c);
      RenderParse(s);
      ParseIsWellFormed(s);
      ShortLinesRest(b, e);
      LoadedIsStorable(rest);
      OneChunkIsShort(b, e);
      if e < |b| {
        ChunkEndsLine(b, e);
        SavedHasNoNul(rest);
      } else {
        assert c == b;
      }
    }
  }

  /** Saving and loading again gives the same lines exactly when they are storable. */
  lemma {:induction false} LoadSavedIff(ls: seq<Line>, nl: bool)
    ensures var b := Saved(ls, nl); Lines(b) == ls && LastNewline(b) == nl <==> Storable(ls, nl)
  {
    hide Render, WellFormed, Lines, LastNewline, Saved, ShortLines, LineStorable;
    var b := Saved(ls, nl);
    if Storable(ls, nl) {
      LoadSaved(ls, nl);
    } else if Lines(b) == ls && LastNewline(b) == nl {
      SaveLoadIff(b);
      LoadedIsStorable(b);
    }
  }

  /** The value can be put into the line of a file without breaking it. */
  predicate ValueStorable(l: Line, v: string, atEnd: bool)
    requires l.Entry?
  {
    && ValueFits(v, l.gap1, l.gap2, l.comment) && NUL !in v && '\n' !in v
    && var n := |Render(l.(value := v))|; if atEnd then n <= 1023 else n < 1023
  }

  lemma EditedStorable(l: Line, v: string, atEnd: bool)
    requires l.Entry? && LineStorable(l, atEnd)
    ensures LineStorable(l.(value := v), atEnd) <==> ValueStorable(l, v, atEnd)
  {
    hide FrameFits, ValueFits;
    var head, tail := l.prefix + l.name + l.gap1, l.gap2 + l.comment;
    assert Render(l) == head + l.value + tail;
    assert Render(l.(value := v)) == head + v + tail;
    assert |l.name| > 0 by {
      NamePresent(l);
    }
  }

  lemma NamePresent(l: Line)
    requires l.Entry? && WellFormed(l)
    ensures l.name != ""
  {}

  // ----- the editor

  datatype Option<T> = None | Some(value: T)

  /** The values of the entry fields put into the lines; lines without a field stay. */
  function Replaced(ls: seq<Line>, fields: seq<Option<string>>): (r: seq<Line>)
    requires |fields| == |ls| && forall i :: 0 <= i < |ls| && fields[i].Some? ==> ls[i].Entry?
    ensures |r| == |ls|
  {
    seq(|ls|, i requires 0 <= i < |ls| =>
      if fields[i].Some? && ls[i].Entry? then ls[i].(value := fields[i].value) else ls[i])
  }

  /** Each new value fits its line. */
  predicate EditsFit(ls: seq<Line>, fields: seq<Option<string>>, nl: bool)
    requires |fields| == |ls| && forall i :: 0 <= i < |ls| && fields[i].Some? ==> ls[i].Entry?
  {
    forall i :: 0 <= i < |ls| && fields[i].Some? ==> ValueStorable(ls[i], fields[i].value, i == |ls| - 1 && !nl)
  }

  /** Editing values of a loaded file, saving and loading again: nothing but those values has changed,
      exactly when each of them fits its line and the line still fits the buffer. */
  lemma {:induction false} EditFileIff(b: string, fields: seq<Option<string>>)
    requires NUL !in b && ShortLines(b) && |fields| == |Lines(b)|
    requires forall i :: 0 <= i < |fields| && fields[i].Some? ==> Lines(b)[i].Entry?
    ensures var ls, nl := Replaced(Lines(b), fields), LastNewline(b);
      Lines(Saved(ls, nl)) == ls && LastNewline(Saved(ls, nl)) == nl <==> EditsFit(Lines(b), fields, nl)
  {
    hide Render, WellFormed, Lines, LastNewline, Saved, ShortLines, LineStorable, ValueStorable;
    LoadedIsStorable(b);
    var was, nl := Lines(b), LastNewline(b);
    var ls := Replaced(was, fields);
    LoadSavedIff(ls, nl);
    forall i | 0 <= i < |ls|
      ensures LineStorable(was[i], i == |ls| - 1 && !nl)
      ensures fields[i].Some? ==>
        (LineStorable(ls[i], i == |ls| - 1 && !nl) <==> ValueStorable(was[i], fields[i].value, i == |ls| - 1 && !nl))
      ensures fields[i].None? ==> ls[i] == was[i]
    {
      if fields[i].Some? {
        EditedStorable(was[i], fields[i].value, i == |ls| - 1 && !nl);
      }
    }
  }

  lemma LoadStep(b: string, e: nat)
    requires b != "" && e == ChunkEnd(b, 0)
    ensures 0 < e <= |b| && Lines(b) == [Parse(LineIn(b[..e]))] + Lines(b[e..])
    ensures LastNewline(b) == if e == |b| then EndsLine(b[..e]) else LastNewline(b[e..])
  {
    assert b[..|b|] == b;
  }

  lemma NothingToLoad()
    ensures Lines("") == [] && LastNewline("")
  {}

  class CfgFile {
    var lines: seq<Line>
    var lastNewline: bool

    /** cfg_leer on a file with contents `b`. */
    method Load(b: string)
      modifies this
      ensures lines == Lines(b) && lastNewline == LastNewline(b)
    {
      hide Parse, LineIn, EndsLine, ChunkEnd, Lines, LastNewline;
      NothingToLoad();
      lines := [];
      lastNewline := true;
      var rest := b;
      while rest != ""
        invariant lines + Lines(rest) == Lines(b)
        invariant (if rest == "" then lastNewline else LastNewline(rest)) == LastNewline(b)
        decreases |rest|
      {
        var e := ChunkEnd(rest, 0);
        LoadStep(rest, e);
        lastNewline := EndsLine(rest[..e]);
        var l := ParseLine(LineIn(rest[..e]));
        lines := lines + [l];
        rest := rest[e..];
      }
    }

    /** cfg_guardar: the bytes written. */
    method Save() returns (b: string)
      ensures b == Saved(lines, lastNewline)
    {
      hide Render;
      b := "";
      var i := 0;
      while i < |lines|
        invariant 0 <= i <= |lines| && b + Saved(lines[i..], lastNewline) == Saved(lines, lastNewline)
      {
        ghost var was := b;
        var piece := Render(lines[i]);
        assert lines[i..][1..] == lines[i + 1..];
        if !(i == |lines| - 1 && !lastNewline) {
          piece := piece + "\n";
        } else {
          assert Render(lines[i]) + "" == piece;
        }
        assert was + (piece + Saved(lines[i + 1..], lastNewline)) == was + piece + Saved(lines[i + 1..], lastNewline);
        b := b + piece;
        i := i + 1;
      }
    }

    /** The loop of on_btn_cfg_save; only entries have a field. */
    method SetValues(fields: seq<Option<string>>)
      requires |fields| == |lines| && forall i :: 0 <= i < |lines| && fields[i].Some? ==> lines[i].Entry?
      modifies this`lines
      ensures lines == Replaced(old(lines), fields)
    {
      ghost var was := lines;
      var i := 0;
      while i < |lines|
        invariant 0 <= i <= |lines| == |was|
        invariant forall j :: 0 <= j < |was| ==> lines[j] == if j < i then Replaced(was, fields)[j] else was[j]
      {
        if fields[i].Some? {
          lines := lines[i := lines[i].(value := fields[i].value)];
        }
        i := i + 1;
      }
    }

    /** Load and save with nothing edited. */
    method Rewrite(b: string) returns (w: string)
      modifies this
      ensures w == b <==> NUL !in b && ShortLines(b)
    {
      Load(b);
      w := Save();
      SaveLoadIff(b);
    }

    /** on_btn_cfg_save on a file that was loaded from `b`. */
    method SaveEdits(fields: seq<Option<string>>, ghost b: string) returns (w: string)
      requires NUL !in b && ShortLines(b) && lines == Lines(b) && lastNewline == LastNewline(b)
      requires |fields| == |lines| && forall i :: 0 <= i < |lines| && fields[i].Some? ==> lines[i].Entry?
      modifies this`lines
      ensures lines == Replaced(Lines(b), fields)
      ensures Lines(w) == lines && LastNewline(w) == lastNewline <==> EditsFit(Lines(b), fields, lastNewline)
    {
      SetValues(fields);
      w := Save();
      EditFileIff(b, fields);
    }
  }
}
