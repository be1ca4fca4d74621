/** ew_controller/ew_controller.c: cfg_parse_linea and the line writer of cfg_guardar. */
module ConfigLine {

  /** CFGLINE. The prefix field of the other two kinds is never written back and is left out. */
  datatype Line =
    | Entry(prefix: string, name: string, gap1: string, value: string, gap2: string, comment: string)
    | Comment(raw: string)
    | Blank(raw: string)

  predicate IsBlank(c: char) { c == ' ' || c == '\t' }

  /** The first index from `k` on that is not a blank. */
  function BlanksEnd(s: string, k: nat): (r: nat)
    requires k <= |s|
    ensures k <= r <= |s| && (forall i :: k <= i < r ==> IsBlank(s[i])) && (r < |s| ==> !IsBlank(s[r]))
    decreases |s| - k
  {
    if k < |s| && IsBlank(s[k]) then BlanksEnd(s, k + 1) else k
  }

  /** The first index from `k` on that is a blank. */
  function TokenEnd(s: string, k: nat): (r: nat)
    requires k <= |s|
    ensures k <= r <= |s| && (forall i :: k <= i < r ==> !IsBlank(s[i])) && (r < |s| ==> IsBlank(s[r]))
    decreases |s| - k
  {
    if k < |s| && !IsBlank(s[k]) then TokenEnd(s, k + 1) else k
  }

  /** Where the blanks before `k` begin, but not before `from`. */
  function BlanksStart(s: string, from: nat, k: nat): (r: nat)
    requires from <= k <= |s|
    ensures from <= r <= k && (forall i :: r <= i < k ==> IsBlank(s[i])) && (r > from ==> !IsBlank(s[r - 1]))
  {
    if k > from && IsBlank(s[k - 1]) then BlanksStart(s, from, k - 1) else k
  }

  /** An odd number of quotes in `s[v..i]`. */
  predicate InQuotes(s: string, v: nat, i: nat)
    requires v <= i <= |s|
  {
    i > v && InQuotes(s, v, i - 1) != (s[i - 1] == '"')
  }

  /** A `#` that opens a comment in a value which starts at `v`. */
  predicate BareHash(s: string, v: nat, i: nat)
    requires v <= i < |s|
  {
    s[i] == '#' && !InQuotes(s, v, i)
  }

  /** The first such index from `k` on, or the length. */
  function HashAt(s: string, v: nat, k: nat): (h: nat)
    requires v <= k <= |s|
    ensures k <= h <= |s| && (forall i :: k <= i < h ==> !BareHash(s, v, i)) && (h < |s| ==> BareHash(s, v, h))
    decreases |s| - k
  {
    if k == |s| || BareHash(s, v, k) then k else HashAt(s, v, k + 1)
  }

  function Parse(s: string): Line {
    var p := BlanksEnd(s, 0);
    if p == |s| then Blank(s)
    else if s[p] == '#' then Comment(s)
    else
      var g := TokenEnd(s, p);
      var v := BlanksEnd(s, g);
      var h := HashAt(s, v, v);
      var q := BlanksStart(s, v, h);
      Entry(s[..p], s[p..g], s[g..v], s[v..q], s[q..h], s[h..])
  }

  function Render(l: Line): string {
    match l
    case Entry(prefix, name, gap1, value, gap2, comment) => prefix + name + gap1 + value + gap2 + comment
    case Comment(raw) => raw
    case Blank(raw) => raw
  }

  /** The scan for a comment outside quotes. */
  method FindHash(line: string, vstart: nat) returns (hash: nat)
    requires vstart <= |line|
    ensures hash == HashAt(line, vstart, vstart)
  {
    var inQ := false;
    hash := vstart;
    while hash < |line| && (line[hash] != '#' || inQ)
      invariant vstart <= hash <= |line| && HashAt(line, vstart, vstart) == HashAt(line, vstart, hash)
      invariant inQ == InQuotes(line, vstart, hash)
    {
      if line[hash] == '"' {
        inQ := !inQ;
      }
      hash := hash + 1;
    }
  }

  method ParseLine(line: string) returns (l: Line)
    ensures l == Parse(line)
  {
    hide IsBlank, HashAt, BareHash, InQuotes;
    var p := 0;
    while p < |line| && IsBlank(line[p])
      invariant 0 <= p <= |line| && BlanksEnd(line, 0) == BlanksEnd(line, p)
    {
      p := p + 1;
    }
    if p == |line| {
      return Blank(line);
    }
    if line[p] == '#' {
      return Comment(line);
    }
    var name := p;
    while p < |line| && !IsBlank(line[p])
      invariant name <= p <= |line| && TokenEnd(line, name) == TokenEnd(line, p)
    {
      p := p + 1;
    }
    var vstart := p;
    while vstart < |line| && IsBlank(line[vstart])
      invariant p <= vstart <= |line| && BlanksEnd(line, p) == BlanksEnd(line, vstart)
    {
      vstart := vstart + 1;
    }
    var hash := FindHash(line, vstart);
    var q := hash;
    while q > vstart && IsBlank(line[q - 1])
      invariant vstart <= q <= hash && BlanksStart(line, vstart, hash) == BlanksStart(line, vstart, q)
    {
      q := q - 1;
    }
    l := Entry(line[..name], line[name..p], line[p..vstart], line[vstart..q], line[q..hash], line[hash..]);
  }

  // ----- the writer undoes the parser

  lemma RenderParse(s: string)
    ensures Render(Parse(s)) == s
  {
    hide BlanksEnd, TokenEnd, BlanksStart, HashAt, BareHash, InQuotes;
    var p := BlanksEnd(s, 0);
    if p < |s| && s[p] != '#' {
      var g := TokenEnd(s, p);
      var v := BlanksEnd(s, g);
      var h := HashAt(s, v, v);
      SixPieces(s, p, g, v, BlanksStart(s, v, h), h);
    }
  }

  lemma SixPieces(s: string, p: nat, g: nat, v: nat, q: nat, h: nat)
    requires p <= g <= v <= q <= h <= |s|
    ensures s[..p] + s[p..g] + s[g..v] + s[v..q] + s[q..h] + s[h..] == s
  {
    assert s[..p] + s[p..g] == s[..g];
    assert s[..g] + s[g..v] == s[..v];
    assert s[..v] + s[v..q] == s[..q];
    assert s[..q] + s[q..h] == s[..h];
    assert s[..h] + s[h..] == s;
  }

  // ----- and the parser the writer, on exactly the lines that parsing can give

  predicate AllBlank(s: string) { forall i :: 0 <= i < |s| ==> s[i] == ' ' || s[i] == '\t' }

  /** How many of the first `n` characters are quotation marks. */
  function Quotes(v: string, n: nat): nat
    requires n <= |v|
  {
    if n == 0 then 0 else Quotes(v, n - 1) + if v[n - 1] == '"' then 1 else 0
  }

  lemma {:induction false} QuotesParity(v: string, n: nat)
    requires n <= |v|
    ensures InQuotes(v, 0, n) <==> Quotes(v, n) % 2 == 1
  {
    if n > 0 {
      QuotesParity(v, n - 1);
    }
  }

  /** Every # stands after an odd number of quotation marks. */
  predicate NoBareHash(v: string) { forall i :: 0 <= i < |v| && v[i] == '#' ==> Quotes(v, i) % 2 == 1 }

  predicate EvenQuotes(v: string) { Quotes(v, |v|) % 2 == 0 }

  lemma NoBareHashIff(v: string)
    ensures NoBareHash(v) <==> forall i :: 0 <= i < |v| ==> !BareHash(v, 0, i)
    ensures EvenQuotes(v) <==> !InQuotes(v, 0, |v|)
  {
    forall i | 0 <= i <= |v|
      ensures InQuotes(v, 0, i) <==> Quotes(v, i) % 2 == 1
    {
      QuotesParity(v, i);
    }
    hide Quotes, InQuotes;
    assert forall i :: 0 <= i < |v| ==> (BareHash(v, 0, i) <==> v[i] == '#' && Quotes(v, i) % 2 == 0);
  }

  /** A value that can stand between `gap1` and what follows. */
  predicate ValueFits(v: string, gap1: string, gap2: string, comment: string) {
    && (gap1 == "" ==> v == "")
    && (v == "" ==> gap2 == "")
    && (v != "" ==> v[0] != ' ' && v[0] != '\t' && v[|v| - 1] != ' ' && v[|v| - 1] != '\t')
    && NoBareHash(v)
    && (comment != "" ==> EvenQuotes(v))
  }

  predicate FrameFits(prefix: string, name: string, gap1: string, gap2: string, comment: string) {
    && AllBlank(prefix) && AllBlank(gap1) && AllBlank(gap2)
    && name != "" && name[0] != '#' && ' ' !in name && '\t' !in name
    && (gap1 == "" ==> gap2 == "" && comment == "")
    && (comment != "" ==> comment[0] == '#')
  }

  predicate WellFormed(l: Line) {
    match l
    case Entry(prefix, name, gap1, value, gap2, comment) =>
      FrameFits(prefix, name, gap1, gap2, comment) && ValueFits(value, gap1, gap2, comment)
    case Comment(raw) => exists k :: 0 <= k < |raw| && raw[k] == '#' && AllBlank(raw[..k])
    case Blank(raw) => AllBlank(raw)
  }

  /** Quotes are counted alike in a piece and in the line around it. */
  lemma {:induction false} QuotesShift(s: string, v: nat, x: string, i: nat)
    requires v + |x| <= |s| && s[v..v + |x|] == x && i <= |x|
    ensures InQuotes(s, v, v + i) == InQuotes(x, 0, i)
  {
    if i > 0 {
      QuotesShift(s, v, x, i - 1);
      assert s[v + i - 1] == x[i - 1];
    }
  }

  lemma {:induction false} QuotesOverBlanks(s: string, v: nat, i: nat, j: nat)
    requires v <= i <= j <= |s| && forall k :: i <= k < j ==> IsBlank(s[k])
    ensures InQuotes(s, v, j) == InQuotes(s, v, i)
  {
    if i < j {
      QuotesOverBlanks(s, v, i, j - 1);
    }
  }

  lemma ParseIsWellFormed(s: string)
    ensures WellFormed(Parse(s))
  {
    hide FrameFits, ValueFits;
    var p := BlanksEnd(s, 0);
    if p < |s| && s[p] != '#' {
      var g := TokenEnd(s, p);
      var v := BlanksEnd(s, g);
      var h := HashAt(s, v, v);
      var q := BlanksStart(s, v, h);
      ParsedFrame(s, p, g, v, q, h);
      ParsedValue(s, g, v, q, h);
    }
  }

  lemma ParsedFrame(s: string, p: nat, g: nat, v: nat, q: nat, h: nat)
    requires p == BlanksEnd(s, 0) && p < |s| && s[p] != '#' && g == TokenEnd(s, p) && v == BlanksEnd(s, g)
    requires h == HashAt(s, v, v) && q == BlanksStart(s, v, h)
    ensures FrameFits(s[..p], s[p..g], s[g..v], s[q..h], s[h..])
  {
    hide InQuotes;
  }

  lemma ParsedValue(s: string, g: nat, v: nat, q: nat, h: nat)
    requires g <= |s| && (g < |s| ==> IsBlank(s[g])) && v == BlanksEnd(s, g)
    requires h == HashAt(s, v, v) && q == BlanksStart(s, v, h)
    ensures ValueFits(s[v..q], s[g..v], s[q..h], s[h..])
  {
    var value := s[v..q];
    forall i | 0 <= i < |value|
      ensures !BareHash(value, 0, i)
    {
      QuotesShift(s, v, value, i);
      assert !BareHash(s, v, v + i);
    }
    QuotesShift(s, v, value, |value|);
    QuotesOverBlanks(s, v, q, h);
    NoBareHashIff(value);
    hide InQuotes, Quotes, NoBareHash, EvenQuotes;
  }

  predicate PieceAt(s: string, k: nat, x: string) {
    k + |x| <= |s| && s[k..k + |x|] == x
  }

  lemma PieceChars(s: string, k: nat, x: string)
    requires PieceAt(s, k, x)
    ensures k + |x| <= |s| && forall i :: k <= i < k + |x| ==> s[i] == x[i - k]
  {}

  predicate Seams(s: string, l: Line, p: nat, g: nat, v: nat, q: nat, h: nat)
    requires l.Entry?
  {
    && p == |l.prefix| && g == p + |l.name| && v == g + |l.gap1| && q == v + |l.value| && h == q + |l.gap2|
    && |s| == h + |l.comment|
    && PieceAt(s, 0, l.prefix) && PieceAt(s, p, l.name) && PieceAt(s, g, l.gap1)
    && PieceAt(s, v, l.value) && PieceAt(s, q, l.gap2) && PieceAt(s, h, l.comment)
  }

  /** Where the pieces of an entry lie in its line. */
  lemma SeamsOf(l: Line) returns (p: nat, g: nat, v: nat, q: nat, h: nat)
    requires l.Entry?
    ensures Seams(Render(l), l, p, g, v, q, h)
  {
    p := |l.prefix|; g := p + |l.name|; v := g + |l.gap1|; q := v + |l.value|; h := q + |l.gap2|;
  }

  /** The scanners stop at the seams of the frame, */
  lemma FrameFound(s: string, p: nat, g: nat, v: nat)
    requires p < g <= v <= |s| && s[p] != '#' && (g == v ==> g == |s|)
    requires forall i :: 0 <= i < p || g <= i < v ==> IsBlank(s[i])
    requires forall i :: p <= i < g ==> !IsBlank(s[i])
    requires v < |s| ==> !IsBlank(s[v])
    ensures BlanksEnd(s, 0) == p && TokenEnd(s, p) == g && BlanksEnd(s, g) == v
  {
    assert g < v ==> IsBlank(s[g]);
  }

  /** and at those of the value. */
  lemma ValueFound(s: string, v: nat, q: nat, h: nat)
    requires v <= q <= h <= |s| && (q > v ==> !IsBlank(s[q - 1]))
    requires forall i :: v <= i < q ==> !BareHash(s, v, i)
    requires forall i :: q <= i < h ==> IsBlank(s[i])
    requires h < |s| ==> BareHash(s, v, h)
    ensures HashAt(s, v, v) == h && BlanksStart(s, v, h) == q
  {
    assert forall i :: q <= i < h ==> !BareHash(s, v, i);
  }

  lemma FrameSeams(s: string, l: Line, p: nat, g: nat, v: nat, q: nat, h: nat)
    requires l.Entry? && WellFormed(l) && Seams(s, l, p, g, v, q, h)
    ensures g <= |s| && BlanksEnd(s, 0) == p && p < |s| && s[p] != '#' && TokenEnd(s, p) == g && BlanksEnd(s, g) == v
  {
    PieceChars(s, 0, l.prefix);
    PieceChars(s, p, l.name);
    PieceChars(s, g, l.gap1);
    PieceChars(s, v, l.value);
    PieceChars(s, h, l.comment);
    hide PieceAt, ValueFits;
    FrameFound(s, p, g, v);
  }

  lemma ValueSeams(s: string, l: Line, p: nat, g: nat, v: nat, q: nat, h: nat)
    requires l.Entry? && WellFormed(l) && Seams(s, l, p, g, v, q, h)
    ensures v <= q <= h <= |s| && HashAt(s, v, v) == h && BlanksStart(s, v, h) == q
  {
    NoBareHashIff(l.value);
    hide Quotes, NoBareHash, EvenQuotes;
    forall i | v <= i < q
      ensures !BareHash(s, v, i)
    {
      QuotesShift(s, v, l.value, i - v);
      assert !BareHash(l.value, 0, i - v);
      PieceChars(s, v, l.value);
    }
    PieceChars(s, v, l.value);
    PieceChars(s, q, l.gap2);
    PieceChars(s, h, l.comment);
    QuotesShift(s, v, l.value, |l.value|);
    QuotesOverBlanks(s, v, q, h);
    hide PieceAt;
    ValueFound(s, v, q, h);
  }

  lemma SeamsEntry(s: string, l: Line, p: nat, g: nat, v: nat, q: nat, h: nat)
    requires l.Entry? && Seams(s, l, p, g, v, q, h)
    ensures l == Entry(s[..p], s[p..g], s[g..v], s[v..q], s[q..h], s[h..])
  {
    assert s[..p] == s[0..p] && s[h..] == s[h..|s|];
  }

  lemma ParseRender(l: Line)
    requires WellFormed(l)
    ensures Parse(Render(l)) == l
  {
    if l.Entry? {
      hide Render, Parse, Seams, WellFormed, PieceAt;
      var p, g, v, q, h := SeamsOf(l);
      var s := Render(l);
      FrameSeams(s, l, p, g, v, q, h);
      ValueSeams(s, l, p, g, v, q, h);
      SeamsEntry(s, l, p, g, v, q, h);
    }
  }

  /** Writing a line and reading it back gives the same line exactly when it is well formed. */
  lemma ParseRenderIff(l: Line)
    ensures Parse(Render(l)) == l <==> WellFormed(l)
  {
    ParseIsWellFormed(Render(l));
    if WellFormed(l) {
      ParseRender(l);
    }
  }

  /** Replacing the value of a line that was read: the edited line, written and read back, differs in
      that value alone exactly when the new value fits between its neighbours. */
  lemma EditIff(s: string, v: string)
    requires Parse(s).Entry?
    ensures var l := Parse(s); Parse(Render(l.(value := v))) == l.(value := v) <==>
      ValueFits(v, l.gap1, l.gap2, l.comment)
  {
    ParseIsWellFormed(s);
    ParseRenderIff(Parse(s).(value := v));
  }

  /** The condition can fail: a leading blank is read as part of the gap, a bare hash as a comment. */
  lemma EditCanFail(s: string)
    requires Parse(s).Entry?
    ensures var l := Parse(s); Parse(Render(l.(value := " 1"))) != l.(value := " 1")
    ensures var l := Parse(s); Parse(Render(l.(value := "#1"))) != l.(value := "#1")
  {
    EditIff(s, " 1");
    EditIff(s, "#1");
    assert Quotes("#1", 0) == 0 && "#1"[0] == '#';
    hide Parse, Render;
  }
}
