/**
 * `lines_from_alert_div` of scripts/check_certificates.py: the children of the
 * alert element become an ordered list of text lines, split at `<br>` tags.
 */
module LineExtraction {
  import opened Wrappers
  import opened Text
  import opened KeyValue

  /**
   * A child of the alert element: a text node, a `<br>` tag, or any other tag,
   * which contributes its flattened text (`get_text(" ", strip=True)`, taken as given).
   */
  datatype Node = StringNode(text: string) | BrTag | OtherTag(flatText: string)

  /** Number of `<br>` children. */
  function BrCount(ns: seq<Node>): nat {
    if ns == [] then 0
    else BrCount(ns[..|ns| - 1]) + (if ns[|ns| - 1].BrTag? then 1 else 0)
  }

  /** The text a non-break child adds to the current line: a text node stripped, a tag its flattened text. */
  function Piece(n: Node): string
    requires !n.BrTag?
  {
    match n
    case StringNode(s) => Strip(s)
    case OtherTag(t) => t
  }

  /** The children cut at every `<br>`: one group more than there are breaks, no break inside a group. */
  function Groups(ns: seq<Node>): (gs: seq<seq<Node>>)
    ensures |gs| == BrCount(ns) + 1
    ensures forall g <- gs, n <- g :: !n.BrTag?
  {
    if ns == [] then [[]]
    else
      var init := Groups(ns[..|ns| - 1]);
      var n := ns[|ns| - 1];
      if n.BrTag? then init + [[]]
      else init[..|init| - 1] + [init[|init| - 1] + [n]]
  }

  /** The non-empty pieces of a group, in document order. */
  function Pieces(g: seq<Node>): seq<string>
    requires forall n <- g :: !n.BrTag?
  {
    if g == [] then []
    else
      var p := Piece(g[|g| - 1]);
      Pieces(g[..|g| - 1]) + (if p != "" then [p] else [])
  }

  /** A group's pieces joined with single spaces, then stripped. */
  function GroupLine(g: seq<Node>): string
    requires forall n <- g :: !n.BrTag?
  {
    Strip(Join(Pieces(g), ' '))
  }

  /** Reference definition: one normalised line per group whose joined text is not empty. */
  function LinesOf(gs: seq<seq<Node>>): (lines: seq<string>)
    requires forall g <- gs, n <- g :: !n.BrTag?
    ensures |lines| <= |gs|
    ensures forall l <- lines :: l != "" && Normalized(l)
  {
    if gs == [] then []
    else
      var g := gs[|gs| - 1];
      var line := GroupLine(g);
      LinesOf(gs[..|gs| - 1]) + (if line == "" then [] else [CleanValue(Some(line))])
  }

  /** What `lines_from_alert_div` returns for these children. */
  function AlertLines(ns: seq<Node>): seq<string> {
    LinesOf(Groups(ns))
  }

  /** A flush of the buffer `cur`: its pieces joined and stripped, if that leaves anything. */
  function Flush(cur: seq<string>): seq<string> {
    if cur == [] then []
    else
      var joined := Strip(Join(cur, ' '));
      if joined != "" then [joined] else []
  }

  /** The lines flushed for a sequence of groups, before the final clean-up pass. */
  function RawLines(gs: seq<seq<Node>>): seq<string>
    requires forall g <- gs, n <- g :: !n.BrTag?
  {
    if gs == [] then []
    else RawLines(gs[..|gs| - 1]) + Flush(Pieces(gs[|gs| - 1]))
  }

  /**
   * The closing comprehension: drop the lines whose strip is empty (the blank
   * ones, by `Strip`'s contract), normalise whitespace in the rest.
   */
  function CleanLines(raw: seq<string>): seq<string> {
    if raw == [] then []
    else
      var ln := raw[|raw| - 1];
      CleanLines(raw[..|raw| - 1]) + (if !Blank(ln) then [CleanValue(Some(ln))] else [])
  }

  /** Cleaning one flush yields the group's reference line, if any. */
  lemma CleanFlush(g: seq<Node>)
    requires forall n <- g :: !n.BrTag?
    ensures CleanLines(Flush(Pieces(g))) == if GroupLine(g) == "" then [] else [CleanValue(Some(GroupLine(g)))]
  {
    var f := Flush(Pieces(g));
    if f != [] {
      assert f == [GroupLine(g)];
      assert f[..0] == [];
    }
  }

  /** Flushing and cleaning the groups one by one yields the reference lines. */
  lemma {:induction false} CleanRawLines(gs: seq<seq<Node>>)
    requires forall g <- gs, n <- g :: !n.BrTag?
    ensures CleanLines(RawLines(gs)) == LinesOf(gs)
    decreases |gs|
  {
    if gs != [] {
      var init := gs[..|gs| - 1];
      var g := gs[|gs| - 1];
      CleanRawLines(init);
      CleanLinesAppend(RawLines(init), Flush(Pieces(g)));
      CleanFlush(g);
    }
  }

  lemma {:induction false} CleanLinesAppend(a: seq<string>, b: seq<string>)
    ensures CleanLines(a + b) == CleanLines(a) + CleanLines(b)
    decreases |b|
  {
    if b != [] {
      var b' := b[..|b| - 1];
      assert (a + b)[..|a + b| - 1] == a + b';
      CleanLinesAppend(a, b');
    } else {
      assert a + b == a;
    }
  }

  /** Every extracted line is non-empty, stripped, and single-spaced. */
  lemma AlertLinesNormal(ns: seq<Node>)
    ensures forall l <- AlertLines(ns) :: l != "" && Normalized(l)
  {
  }

  /** There is at most one line per `<br>`-separated group. */
  lemma AlertLinesCount(ns: seq<Node>)
    ensures |AlertLines(ns)| <= BrCount(ns) + 1
  {
  }

  lemma {:induction false} GroupsWithoutBreaks(ns: seq<Node>)
    requires BrCount(ns) == 0
    ensures Groups(ns) == [ns]
  {
    if ns != [] {
      GroupsWithoutBreaks(ns[..|ns| - 1]);
      assert ns[..|ns| - 1] + [ns[|ns| - 1]] == ns;
    }
  }

  /** Without `<br>` the whole flattened text is at most one line. */
  lemma NoBreakOneLine(ns: seq<Node>)
    requires BrCount(ns) == 0
    ensures forall n <- ns :: !n.BrTag?
    ensures AlertLines(ns) == if GroupLine(ns) == "" then [] else [CleanValue(Some(GroupLine(ns)))]
  {
    GroupsWithoutBreaks(ns);
    assert [ns][..0] == [];
  }

  /** The flush at a `<br>` and at the end of the children. */
  method FlushBuffer(cur: seq<string>) returns (out: seq<string>)
    ensures out == Flush(cur)
  {
    out := [];
    if cur != [] {
      var joined := Strip(Join(cur, ' '));
      if joined != "" {
        out := [joined];
      }
    }
  }

  /** Appending one child to the walked prefix extends the last group, or opens a new one at a `<br>`. */
  lemma GroupsSnoc(ns: seq<Node>, n: Node)
    ensures var gs := Groups(ns);
      Groups(ns + [n]) == if n.BrTag? then gs + [[]] else gs[..|gs| - 1] + [gs[|gs| - 1] + [n]]
  {
    assert (ns + [n])[..|ns|] == ns;
  }

  lemma PiecesSnoc(g: seq<Node>, n: Node)
    requires forall m <- g :: !m.BrTag?
    requires !n.BrTag?
    ensures forall m <- g + [n] :: !m.BrTag?
    ensures Pieces(g + [n]) == Pieces(g) + (if Piece(n) != "" then [Piece(n)] else [])
  {
    assert (g + [n])[..|g|] == g;
  }

  lemma RawLinesSnoc(gs: seq<seq<Node>>, g: seq<Node>)
    requires forall h <- gs, n <- h :: !n.BrTag?
    requires forall n <- g :: !n.BrTag?
    ensures forall h <- gs + [g], n <- h :: !n.BrTag?
    ensures RawLines(gs + [g]) == RawLines(gs) + Flush(Pieces(g))
  {
    assert (gs + [g])[..|gs|] == gs;
  }

  /** A text or other child extends the open group, and its piece, if any, the buffer. */
  lemma PieceStep(children: seq<Node>, k: nat, done: seq<seq<Node>>, open: seq<Node>)
    requires k < |children| && !children[k].BrTag?
    requires Groups(children[..k]) == done + [open]
    requires forall n <- open :: !n.BrTag?
    ensures Groups(children[..k + 1]) == done + [open + [children[k]]]
    ensures forall n <- open + [children[k]] :: !n.BrTag?
    ensures Pieces(open + [children[k]]) ==
      Pieces(open) + if Piece(children[k]) != "" then [Piece(children[k])] else []
  {
    GroupsSnoc(children[..k], children[k]);
    assert children[..k + 1] == children[..k] + [children[k]];
    PiecesSnoc(open, children[k]);
  }

  /** A `<br>` closes the open group, flushing its pieces, and opens an empty one. */
  lemma BreakStep(children: seq<Node>, k: nat, done: seq<seq<Node>>, open: seq<Node>)
    requires k < |children| && children[k].BrTag?
    requires Groups(children[..k]) == done + [open]
    requires forall h <- done, n <- h :: !n.BrTag?
    requires forall n <- open :: !n.BrTag?
    ensures Groups(children[..k + 1]) == (done + [open]) + [[]]
    ensures forall h <- done + [open], n <- h :: !n.BrTag?
    ensures RawLines(done + [open]) == RawLines(done) + Flush(Pieces(open))
  {
    GroupsSnoc(children[..k], children[k]);
    assert children[..k + 1] == children[..k] + [children[k]];
    RawLinesSnoc(done, open);
  }

  /** `lines_from_alert_div(alert_div)`: walk the children, buffer the pieces, flush at each `<br>` and at the end. */
  method LinesFromAlertDiv(children: seq<Node>) returns (lines: seq<string>)
    ensures lines == AlertLines(children)
    ensures forall l <- lines :: l != "" && Normalized(l)
    ensures |lines| <= BrCount(children) + 1
  {
    var raw: seq<string> := [];
    var cur: seq<string> := [];
    ghost var done: seq<seq<Node>> := [];
    ghost var open: seq<Node> := [];
    for k := 0 to |children|
      invariant Groups(children[..k]) == done + [open]
      invariant forall h <- done, n <- h :: !n.BrTag?
      invariant forall n <- open :: !n.BrTag?
      invariant raw == RawLines(done) && cur == Pieces(open)
    {
      match children[k]
      case StringNode(s) =>
        PieceStep(children, k, done, open);
        var txt := Strip(s);
        if txt != "" {
          cur := cur + [txt];
        }
        open := open + [children[k]];
      case BrTag =>
        BreakStep(children, k, done, open);
        var flushed := FlushBuffer(cur);
        raw := raw + flushed;
        cur := [];
        done, open := done + [open], [];
      case OtherTag(txt) =>
        PieceStep(children, k, done, open);
        if txt != "" {
          cur := cur + [txt];
        }
        open := open + [children[k]];
    }
    assert children[..|children|] == children;
    RawLinesSnoc(done, open);
    var flushed := FlushBuffer(cur);
    raw := raw + flushed;
    assert raw == RawLines(done + [open]);
    assert Groups(children) == done + [open];
    CleanRawLines(done + [open]);
    lines := CleanLines(raw);
  }
}
