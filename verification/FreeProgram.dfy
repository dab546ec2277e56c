/** Freeing an extent (src/spare.c, src/free.c): the decision tree that compiles a free
    into a four slot program, and the instructions of that program.

    A pointer to a node of the in-memory spare tree is the start of the node. An
    instruction that follows a pointer to a node that is no longer in the tree faults, as
    does one that writes a field of a spare block where there is none. */
module FreeProgram {
  import opened Layout
  import opened Extents
  import opened Coalesce

  datatype Option<T> = None | Some(value: T)

  type Node = Option<Extent>

  // ---------------------------------------------------------------- the spare chain

  function StartOf(n: Node): nat {
    if n.Some? then n.value.start else 0
  }

  function At(s: seq<Extent>, i: int): Node {
    if 0 <= i < |s| then Some(s[i]) else None
  }

  /** The list on disk that starts at the info block is the in-memory sequence. */
  ghost predicate ChainOK(img: Image, s: seq<Extent>) {
    img.spareChain == StartOf(At(s, 0)) && Linked(img, s, 0)
  }

  /** A stretch of the chain whose last block points to `last`. */
  ghost predicate Linked(img: Image, s: seq<Extent>, last: nat) {
    forall i :: 0 <= i < |s| ==> LinkAt(img, s, i, last)
  }

  predicate LinkAt(img: Image, s: seq<Extent>, i: nat, last: nat)
    requires i < |s|
  {
    && s[i].start in img.blocks
    && img.blocks[s[i].start] == Spare(s[i].length, if i + 1 < |s| then s[i + 1].start else last)
  }

  // ---------------------------------------------------------------- compiling a free

  datatype FreeCtx = FreeCtx(leftLeft: Node, left: Node, cur: Extent, right: Node, rightRight: Node, dbSize: nat)

  datatype Op =
    | End
    | CreateNewSpare(first: Extent, last: Extent, next: Node)
    | UpdateExistSpare(first: Extent, last: Extent, next: Node)
    | UpdateSpareNext(target: Extent, newNext: Node)
    | UpdateInfoBlk(head: Node)
    | DbTruncate(at: Extent)
    | RemoveSpareRb(a: Node, b: Node, c: Node)

  const SFOP_MAX_CNT: nat := 4

  type Program = p: seq<Op> | |p| == 4 witness [End, End, End, End]

  /** The instructions of one free; the slots after the first End are End as well. */
  function SetActions(ctx: FreeCtx): Program {
    var mergeLeft := ctx.left.Some? && ctx.left.value.End() == ctx.cur.start;
    var mergeRight := ctx.right.Some? && ctx.cur.End() == ctx.right.value.start;
    var edge := ctx.cur.End() == ctx.dbSize;
    var cur := ctx.cur;
    if ctx.left.Some? then
      var left := ctx.left.value;
      if mergeLeft then
        if ctx.right.Some? then
          if mergeRight then
            [UpdateExistSpare(left, ctx.right.value, ctx.rightRight), RemoveSpareRb(Some(cur), ctx.right, None), End, End]
          else
            [UpdateExistSpare(left, cur, ctx.right), RemoveSpareRb(Some(cur), None, None), End, End]
        else if edge then
          if ctx.leftLeft.Some? then
            [DbTruncate(left), UpdateSpareNext(ctx.leftLeft.value, None), RemoveSpareRb(ctx.left, Some(cur), None), End]
          else
            [DbTruncate(left), UpdateInfoBlk(None), RemoveSpareRb(ctx.left, Some(cur), None), End]
        else
          [UpdateExistSpare(left, cur, None), RemoveSpareRb(Some(cur), None, None), End, End]
      else
        if ctx.right.Some? then
          if mergeRight then
            [UpdateExistSpare(cur, ctx.right.value, ctx.rightRight), UpdateSpareNext(left, Some(cur)),
             RemoveSpareRb(ctx.right, None, None), End]
          else
            [CreateNewSpare(cur, cur, ctx.right), UpdateSpareNext(left, Some(cur)), End, End]
        else if edge then
          [DbTruncate(cur), RemoveSpareRb(Some(cur), None, None), End, End]
        else
          [CreateNewSpare(cur, cur, None), UpdateSpareNext(left, Some(cur)), End, End]
    else
      if ctx.right.Some? then
        if mergeRight then
          [UpdateExistSpare(cur, ctx.right.value, ctx.rightRight), UpdateInfoBlk(Some(cur)),
           RemoveSpareRb(ctx.right, None, None), End]
        else
          [CreateNewSpare(cur, cur, ctx.right), UpdateInfoBlk(Some(cur)), End, End]
      else if edge then
        [DbTruncate(cur), RemoveSpareRb(Some(cur), None, None), End, End]
      else
        [CreateNewSpare(cur, cur, None), UpdateInfoBlk(Some(cur)), End, End]
  }

  // ---------------------------------------------------------------- running the program

  datatype State = State(img: Image, spares: seq<Extent>)
  datatype Outcome = Done(st: State) | Fault

  /** Index of the node that starts at a; |s| when no node does. */
  function Find(s: seq<Extent>, a: nat): (i: nat)
    ensures i <= |s|
    ensures i < |s| ==> s[i].start == a
    ensures forall j :: 0 <= j < i ==> s[j].start != a
  {
    FindFrom(s, a, 0)
  }

  function FindFrom(s: seq<Extent>, a: nat, from: nat): (i: nat)
    requires from <= |s|
    ensures from <= i <= |s|
    ensures i < |s| ==> s[i].start == a
    ensures forall j :: from <= j < i ==> s[j].start != a
    decreases |s| - from
  {
    if from == |s| || s[from].start == a then from else FindFrom(s, a, from + 1)
  }

  predicate Dangling(s: seq<Extent>, n: Node) {
    n.Some? && Find(s, n.value.start) == |s|
  }

  function Without(s: seq<Extent>, n: Node): seq<Extent> {
    if n.None? then s
    else
      var i := Find(s, n.value.start);
      if i == |s| then s else s[..i] + s[i + 1..]
  }

  /** One instruction. */
  function Exec(op: Op, st: State): Outcome {
    var s := st.spares;
    match op
    case End => Done(st)
    case CreateNewSpare(first, last, next) => WriteSpare(first, last, next, st, false)
    case UpdateExistSpare(first, last, next) => WriteSpare(first, last, next, st, true)
    case UpdateSpareNext(target, newNext) =>
      if Dangling(s, Some(target)) || Dangling(s, newNext) || !IsSpare(st.img, target.start) then Fault
      else Done(State(SetSpareNext(st.img, target.start, StartOf(newNext)), s))
    case UpdateInfoBlk(head) =>
      if Dangling(s, head) then Fault
      else Done(State(st.img.(spareChain := StartOf(head)), s))
    case DbTruncate(at) =>
      if Dangling(s, Some(at)) then Fault
      else Done(State(Truncate(st.img, at.start), s))
    case RemoveSpareRb(a, b, c) =>
      if Dangling(s, a) || Dangling(Without(s, a), b) || Dangling(Without(Without(s, a), b), c) then Fault
      else Done(State(st.img, Without(Without(Without(s, a), b), c)))
  }

  function WriteSpare(first: Extent, last: Extent, next: Node, st: State, update: bool): Outcome {
    var s := st.spares;
    var i := Find(s, first.start);
    var j := Find(s, last.start);
    if i == |s| || j == |s| || Dangling(s, next) || s[j].End() < s[i].start then Fault
    else
      var length := s[j].End() - s[i].start;
      var img := Put(st.img, first.start, Spare(length, StartOf(next)));
      Done(State(img, if update then s[i := Extent(first.start, length)] else s))
  }

  /** The interpreter from slot ip on; running off the end of the program is an error. */
  function Run(p: Program, ip: nat, st: State): Outcome
    requires ip <= SFOP_MAX_CNT
    decreases SFOP_MAX_CNT - ip
  {
    if ip == SFOP_MAX_CNT then Fault
    else if p[ip].End? then Done(st)
    else
      match Exec(p[ip], st)
      case Fault => Fault
      case Done(st') => Run(p, ip + 1, st')
  }

  // ---------------------------------------------------------------- every free is correct

  function ContextOf(A: seq<Extent>, e: Extent, B: seq<Extent>, dbSize: nat): FreeCtx {
    FreeCtx(At(A, |A| - 2), At(A, |A| - 1), e, At(B, 0), At(B, 1), dbSize)
  }

  /** What must hold after the program: nothing dangles, memory and disk both hold the
      joined free extents, and the file is cut when the hole is its tail. */
  ghost predicate Freed(out: Outcome, A: seq<Extent>, e: Extent, B: seq<Extent>, end: nat) {
    var c := Join(A, e, B);
    && out.Done?
    && ChainOK(out.st.img, out.st.spares)
    && if c.hole.End() == end
       then out.st.spares == c.before && out.st.img.size == c.hole.start
       else out.st.spares == c.before + [c.hole] + c.after && out.st.img.size == end
  }

  lemma FindAt(s: seq<Extent>, i: nat)
    requires Ordered(s) && i < |s|
    ensures Find(s, s[i].start) == i
  {
  }

  lemma LinkedConcat(img: Image, a: seq<Extent>, b: seq<Extent>, last: nat)
    ensures Linked(img, a + b, last) <==>
      Linked(img, b, last) && Linked(img, a, if b == [] then last else b[0].start)
  {
    var s := a + b;
    var mid := if b == [] then last else b[0].start;
    assert forall i :: 0 <= i < |a| ==> LinkAt(img, s, i, last) == LinkAt(img, a, i, mid);
    assert forall i :: 0 <= i < |b| ==> LinkAt(img, s, |a| + i, last) == LinkAt(img, b, i, last);
    if Linked(img, b, last) && Linked(img, a, mid) {
      forall i | 0 <= i < |s| ensures LinkAt(img, s, i, last) {
        if i >= |a| { assert LinkAt(img, b, i - |a|, last); } else { assert LinkAt(img, a, i, mid); }
      }
    }
  }

  lemma LinkedPut(img: Image, s: seq<Extent>, last: nat, a: nat, b: Block)
    requires Linked(img, s, last) && b.Spare?
    requires forall i :: 0 <= i < |s| ==> Apart(s[i].start, SPARE_SIZE, a, SPARE_SIZE)
    ensures Linked(Put(img, a, b), s, last)
  {
    forall i | 0 <= i < |s| ensures LinkAt(Put(img, a, b), s, i, last) { assert LinkAt(img, s, i, last); }
  }

  lemma LinkedRelink(img: Image, s: seq<Extent>, last: nat, next: nat)
    requires Linked(img, s, last) && |s| > 0 && Ordered(s)
    ensures IsSpare(img, s[|s| - 1].start)
    ensures Linked(SetSpareNext(img, s[|s| - 1].start, next), s, next)
  {
    assert LinkAt(img, s, |s| - 1, last);
    var img' := SetSpareNext(img, s[|s| - 1].start, next);
    forall i | 0 <= i < |s| ensures LinkAt(img', s, i, next) { assert LinkAt(img, s, i, last); }
  }

  lemma LinkedFrame(img: Image, s: seq<Extent>, last: nat, a: nat, next: nat)
    requires Linked(img, s, last) && IsSpare(img, a)
    requires forall i :: 0 <= i < |s| ==> s[i].start != a
    ensures Linked(SetSpareNext(img, a, next), s, last)
  {
    forall i | 0 <= i < |s| ensures LinkAt(SetSpareNext(img, a, next), s, i, last) { assert LinkAt(img, s, i, last); }
  }

  /** The disk side of a free that keeps its hole: the header of the hole is written. */
  function WithHole(img: Image, c: Cut): Image {
    Put(img, c.hole.start, Spare(c.hole.length, StartOf(At(c.after, 0))))
  }

  lemma HoleLinks(img: Image, c: Cut, last: nat)
    requires Separated(c.before + [c.hole] + c.after)
    requires Linked(img, c.before, last) && Linked(img, c.after, 0)
    ensures Linked(WithHole(img, c), c.before, last)
    ensures Linked(WithHole(img, c), [c.hole] + c.after, 0)
    ensures Ordered(c.before) && Ordered([c.hole] + c.after)
    ensures forall i :: 0 <= i < |c.before| ==> c.before[i].End() < c.hole.start
  {
    var s := c.before + [c.hole] + c.after;
    var n := |c.before|;
    assert s[n] == c.hole;
    forall i | 0 <= i < n ensures c.before[i] == s[i] && c.before[i].End() < c.hole.start { }
    forall i | 0 <= i < |c.after| ensures c.after[i] == s[n + 1 + i] && c.hole.End() < c.after[i].start { }
    var i1 := WithHole(img, c);
    var b := Spare(c.hole.length, StartOf(At(c.after, 0)));
    LinkedPut(img, c.before, last, c.hole.start, b);
    LinkedPut(img, c.after, 0, c.hole.start, b);
    assert LinkAt(i1, [c.hole], 0, StartOf(At(c.after, 0)));
    LinkedConcat(i1, [c.hole], c.after, 0);
  }

  /** The hole joined the extent on its left: the link to it is already there. */
  lemma HoleInPlace(img: Image, c: Cut)
    requires Separated(c.before + [c.hole] + c.after)
    requires Linked(img, c.before, c.hole.start) && Linked(img, c.after, 0)
    ensures Linked(WithHole(img, c), c.before + [c.hole] + c.after, 0)
  {
    HoleLinks(img, c, c.hole.start);
    assert c.before + [c.hole] + c.after == c.before + ([c.hole] + c.after);
    LinkedConcat(WithHole(img, c), c.before, [c.hole] + c.after, 0);
  }

  /** The hole starts at the freed extent: its predecessor is linked to it. */
  lemma HoleRelinked(img: Image, c: Cut, last: nat)
    requires Separated(c.before + [c.hole] + c.after) && |c.before| > 0
    requires Linked(img, c.before, last) && Linked(img, c.after, 0)
    ensures var i1, a := WithHole(img, c), c.before[|c.before| - 1].start;
      IsSpare(i1, a) && Linked(SetSpareNext(i1, a, c.hole.start), c.before + [c.hole] + c.after, 0)
  {
    HoleLinks(img, c, last);
    var i1, a := WithHole(img, c), c.before[|c.before| - 1].start;
    var rest := [c.hole] + c.after;
    LinkedRelink(i1, c.before, last, c.hole.start);
    assert rest[0] == c.hole && forall i :: 0 <= i < |rest| ==> c.hole.start <= rest[i].start;
    LinkedFrame(i1, rest, 0, a, c.hole.start);
    assert c.before + [c.hole] + c.after == c.before + rest;
    LinkedConcat(SetSpareNext(i1, a, c.hole.start), c.before, rest, 0);
  }

  // Where the program finds its nodes, after the freed extent joined the tree.

  ghost predicate Ready(A: seq<Extent>, e: Extent, B: seq<Extent>, img: Image, live: map<nat, nat>) {
    Around(A, e, B, live, img.size) && ChainOK(img, A + B)
  }

  lemma GlueOrdered(A: seq<Extent>, e: Extent, B: seq<Extent>)
    requires Separated(A) && Separated(B) && DISK_SIZE_UNIT <= e.length && INFO_SIZE <= e.start
    requires forall i :: 0 <= i < |A| ==> A[i].End() <= e.start
    requires forall i :: 0 <= i < |B| ==> e.End() <= B[i].start
    ensures Ordered(A + [e] + B)
  {
  }

  lemma Nodes(A: seq<Extent>, e: Extent, B: seq<Extent>, img: Image, live: map<nat, nat>)
    requires Ready(A, e, B, img, live)
    ensures Ordered(A + [e] + B)
    ensures Linked(img, A, StartOf(At(B, 0))) && Linked(img, B, 0)
    ensures img.spareChain == StartOf(At(A + B, 0))
  {
    AroundParts(A, e, B, live, img.size);
    GlueOrdered(A, e, B);
    LinkedConcat(img, A, B, 0);
  }

  lemma ContextNodes(A: seq<Extent>, e: Extent, B: seq<Extent>)
    requires Ordered(A + [e] + B)
    ensures var s := A + [e] + B;
      && Find(s, e.start) == |A|
      && (|A| > 0 ==> Find(s, A[|A| - 1].start) == |A| - 1)
      && (|A| > 1 ==> Find(s, A[|A| - 2].start) == |A| - 2)
      && (|B| > 0 ==> Find(s, B[0].start) == |A| + 1)
      && (|B| > 1 ==> Find(s, B[1].start) == |A| + 2)
  {
    var s := A + [e] + B;
    FindAt(s, |A|);
    if |A| > 0 { FindAt(s, |A| - 1); }
    if |A| > 1 { FindAt(s, |A| - 2); }
    if |B| > 0 { FindAt(s, |A| + 1); }
    if |B| > 1 { FindAt(s, |A| + 2); }
  }

  /** The nodes that joined the hole leave the tree: e, and after it the next one if that joined too. */
  lemma DropJoined(X: seq<Extent>, e: Extent, B: seq<Extent>, two: bool, img: Image)
    requires NotIn(X, e.start) && (two ==> |B| > 0 && NotIn(X, B[0].start))
    ensures var s := X + [e] + B;
      Exec(RemoveSpareRb(Some(e), if two then Some(B[0]) else None, None), State(img, s))
      == Done(State(img, X + if two then B[1..] else B))
  {
    FindMid(X, e, B);
    if two {
      FindMid(X, B[0], B[1..]);
      assert X + B == X + [B[0]] + B[1..];
    }
  }

  /** The program of a free that joins on its left and keeps its hole: three of the branches. */
  function LeftJoinProgram(left: Extent, e: Extent, B: seq<Extent>): Program {
    if |B| > 0 && e.End() == B[0].start
    then [UpdateExistSpare(left, B[0], At(B, 1)), RemoveSpareRb(Some(e), Some(B[0]), None), End, End]
    else [UpdateExistSpare(left, e, At(B, 0)), RemoveSpareRb(Some(e), None, None), End, End]
  }

  /** The write that widens node i up to the end of node j. */
  lemma ExecWiden(s: seq<Extent>, i: nat, j: nat, next: Node, img: Image)
    requires i < |s| && j < |s| && Find(s, s[i].start) == i && Find(s, s[j].start) == j && s[i].start <= s[j].End()
    requires !Dangling(s, next)
    ensures var length := s[j].End() - s[i].start;
      Exec(UpdateExistSpare(s[i], s[j], next), State(img, s))
      == Done(State(Put(img, s[i].start, Spare(length, StartOf(next))), s[i := Extent(s[i].start, length)]))
  {
  }

  lemma SpanOf(s: seq<Extent>, i: nat, j: nat)
    requires Ordered(s) && i <= j < |s|
    ensures s[i].start <= s[j].End()
  {
  }

  /** The left neighbour is widened over e, and over the first n nodes of B. */
  lemma ExecWidenLeft(A: seq<Extent>, e: Extent, B: seq<Extent>, n: nat, img: Image)
    requires Ordered(A + [e] + B) && |A| > 0 && n <= 1 && n <= |B|
    ensures var k, last := |A| - 1, if n == 0 then e else B[0];
      A[k].start <= last.End()
      && var h := Extent(A[k].start, last.End() - A[k].start);
         Exec(UpdateExistSpare(A[k], last, At(B, n)), State(img, A + [e] + B))
         == Done(State(Put(img, h.start, Spare(h.length, StartOf(At(B, n)))), A[..k] + [h] + [e] + B))
  {
    hide FindFrom, Find, Exec, WriteSpare, Put, Ordered;
    var s, k: nat, last := A + [e] + B, |A| - 1, if n == 0 then e else B[0];
    ContextNodes(A, e, B);
    assert s[k] == A[k] && s[k + 1 + n] == last;
    SpanOf(s, k, k + 1 + n);
    ExecWiden(s, k, k + 1 + n, At(B, n), img);
    WidenedNode(A, e, B, Extent(A[k].start, last.End() - A[k].start));
  }

  lemma ExecLeftJoin(A: seq<Extent>, e: Extent, B: seq<Extent>, img: Image)
    requires Ordered(A + [e] + B)
    requires |A| > 0 && A[|A| - 1].End() == e.start
    ensures var c := Join(A, e, B);
      Exec(LeftJoinProgram(A[|A| - 1], e, B)[0], State(img, A + [e] + B))
      == Done(State(WithHole(img, c), c.before + [c.hole] + [e] + B))
  {
    hide FindFrom, Find, Exec, WriteSpare, Put, Ordered;
    ExecWidenLeft(A, e, B, if |B| > 0 && e.End() == B[0].start then 1 else 0, img);
  }

  lemma WidenedNode(A: seq<Extent>, e: Extent, B: seq<Extent>, h: Extent)
    requires |A| > 0
    ensures (A + [e] + B)[|A| - 1 := h] == A[..|A| - 1] + [h] + [e] + B
  {
  }

  lemma RunTwo(p: Program, st: State, st1: State, st2: State)
    requires !p[0].End? && Exec(p[0], st) == Done(st1)
    requires !p[1].End? && Exec(p[1], st1) == Done(st2)
    requires p[2].End?
    ensures Run(p, 0, st) == Done(st2)
  {
  }

  lemma RunThree(p: Program, st: State, st1: State, st2: State, st3: State)
    requires !p[0].End? && Exec(p[0], st) == Done(st1)
    requires !p[1].End? && Exec(p[1], st1) == Done(st2)
    requires !p[2].End? && Exec(p[2], st2) == Done(st3)
    requires p[3].End?
    ensures Run(p, 0, st) == Done(st3)
  {
  }

  lemma RunsLeftJoin(A: seq<Extent>, e: Extent, B: seq<Extent>, img: Image)
    requires Ordered(A + [e] + B)
    requires |A| > 0 && A[|A| - 1].End() == e.start
    ensures var c := Join(A, e, B);
      Run(LeftJoinProgram(A[|A| - 1], e, B), 0, State(img, A + [e] + B))
      == Done(State(WithHole(img, c), c.before + [c.hole] + c.after))
  {
    var c := Join(A, e, B);
    ExecLeftJoin(A, e, B, img);
    Starts(A, e, B);
    var X := c.before + [c.hole];
    var two := |B| > 0 && e.End() == B[0].start;
    assert NotIn(X, e.start) && (two ==> NotIn(X, B[0].start)) by {
      assert forall i :: 0 <= i < |X| ==> X[i].start == A[i].start;
      if two { assert forall i :: 0 <= i < |A| ==> (A + [e])[i] == A[i]; }
    }
    DropJoined(X, e, B, two, WithHole(img, c));
    RunTwo(LeftJoinProgram(A[|A| - 1], e, B), State(img, A + [e] + B),
      State(WithHole(img, c), X + [e] + B), State(WithHole(img, c), X + c.after));
  }

  // ---- no join on the left

  function LinkOp(A: seq<Extent>, e: Extent): Op {
    if |A| > 0 then UpdateSpareNext(A[|A| - 1], Some(e)) else UpdateInfoBlk(Some(e))
  }

  function FreshProgram(A: seq<Extent>, e: Extent, B: seq<Extent>): Program {
    if |B| > 0 && e.End() == B[0].start
    then [UpdateExistSpare(e, B[0], At(B, 1)), LinkOp(A, e), RemoveSpareRb(Some(B[0]), None, None), End]
    else [CreateNewSpare(e, e, At(B, 0)), LinkOp(A, e), End, End]
  }

  ghost predicate Linkable(img: Image, A: seq<Extent>) {
    |A| > 0 ==> IsSpare(img, A[|A| - 1].start)
  }

  /** The predecessor of the hole, or the info block, is made to point to it. */
  function WithLink(img: Image, A: seq<Extent>, start: nat): Image
    requires |A| > 0 ==> IsSpare(img, A[|A| - 1].start)
  {
    if |A| > 0 then SetSpareNext(img, A[|A| - 1].start, start) else img.(spareChain := start)
  }

  lemma ExecFresh(A: seq<Extent>, e: Extent, B: seq<Extent>, img: Image)
    requires Ordered(A + [e] + B)
    requires !(|A| > 0 && A[|A| - 1].End() == e.start)
    ensures var c := Join(A, e, B);
      Exec(FreshProgram(A, e, B)[0], State(img, A + [e] + B))
      == Done(State(WithHole(img, c), A + [c.hole] + B))
  {
    if |B| > 0 && e.End() == B[0].start { ExecFreshJoined(A, e, B, img); } else { ExecFreshAlone(A, e, B, img); }
  }

  lemma ExecFreshJoined(A: seq<Extent>, e: Extent, B: seq<Extent>, img: Image)
    requires Ordered(A + [e] + B)
    requires |B| > 0 && e.End() == B[0].start
    ensures var h := Extent(e.start, e.length + B[0].length);
      Exec(UpdateExistSpare(e, B[0], At(B, 1)), State(img, A + [e] + B))
      == Done(State(Put(img, e.start, Spare(h.length, StartOf(At(B, 1)))), A + [h] + B))
  {
    ContextNodes(A, e, B);
    var s := A + [e] + B;
    assert s[|A|] == e && s[|A| + 1] == B[0];
    ReplaceMid(A, e, B, Extent(e.start, e.length + B[0].length));
  }

  lemma ReplaceMid(A: seq<Extent>, e: Extent, B: seq<Extent>, h: Extent)
    ensures (A + [e] + B)[|A| := h] == A + [h] + B
  {
  }

  lemma ExecFreshAlone(A: seq<Extent>, e: Extent, B: seq<Extent>, img: Image)
    requires Ordered(A + [e] + B)
    ensures Exec(CreateNewSpare(e, e, At(B, 0)), State(img, A + [e] + B))
      == Done(State(Put(img, e.start, Spare(e.length, StartOf(At(B, 0)))), A + [e] + B))
  {
    ContextNodes(A, e, B);
    assert (A + [e] + B)[|A|] == e;
  }

  lemma ExecLink(A: seq<Extent>, e: Extent, h: Extent, B: seq<Extent>, img: Image)
    requires Ordered(A + [e] + B) && h.start == e.start
    requires Linkable(img, A)
    ensures Exec(LinkOp(A, e), State(img, A + [h] + B)) == Done(State(WithLink(img, A, e.start), A + [h] + B))
  {
    Starts(A, e, B);
    FindMid(A, h, B);
    if |A| > 0 {
      FindMid(A[..|A| - 1], A[|A| - 1], [h] + B);
      assert A + [h] + B == A[..|A| - 1] + [A[|A| - 1]] + ([h] + B);
    }
  }

  lemma RunsFresh(A: seq<Extent>, e: Extent, B: seq<Extent>, img: Image)
    requires Ordered(A + [e] + B)
    requires !(|A| > 0 && A[|A| - 1].End() == e.start)
    requires Linkable(WithHole(img, Join(A, e, B)), A)
    ensures var c := Join(A, e, B);
      Run(FreshProgram(A, e, B), 0, State(img, A + [e] + B))
      == Done(State(WithLink(WithHole(img, c), A, e.start), c.before + [c.hole] + c.after))
  {
    var c := Join(A, e, B);
    var i1 := WithHole(img, c);
    ExecFresh(A, e, B, img);
    ExecLink(A, e, c.hole, B, i1);
    var st0, st1 := State(img, A + [e] + B), State(i1, A + [c.hole] + B);
    var st2 := State(WithLink(i1, A, e.start), A + [c.hole] + B);
    if |B| > 0 && e.End() == B[0].start {
      Starts(A, e, B);
      assert NotIn(A + [c.hole], B[0].start) by {
        assert forall i :: 0 <= i < |A| + 1 ==> (A + [c.hole])[i].start == (A + [e])[i].start;
      }
      DropNext(A + [c.hole], B, st2.img);
      RunThree(FreshProgram(A, e, B), st0, st1, st2, State(st2.img, A + [c.hole] + c.after));
    } else {
      RunTwo(FreshProgram(A, e, B), st0, st1, st2);
    }
  }

  lemma DropNext(X: seq<Extent>, B: seq<Extent>, img: Image)
    requires |B| > 0 && NotIn(X, B[0].start)
    ensures Exec(RemoveSpareRb(Some(B[0]), None, None), State(img, X + B)) == Done(State(img, X + B[1..]))
  {
    FindMid(X, B[0], B[1..]);
    assert X + B == X + [B[0]] + B[1..];
  }

  // ---- the hole is the tail of the file

  function TailProgram(A: seq<Extent>, e: Extent): Program {
    if |A| > 0 && A[|A| - 1].End() == e.start then
      [DbTruncate(A[|A| - 1]),
       if |A| > 1 then UpdateSpareNext(A[|A| - 2], None) else UpdateInfoBlk(None),
       RemoveSpareRb(Some(A[|A| - 1]), Some(e), None), End]
    else
      [DbTruncate(e), RemoveSpareRb(Some(e), None, None), End, End]
  }

  lemma RunsTailAlone(A: seq<Extent>, e: Extent, img: Image)
    requires Ordered(A + [e])
    requires !(|A| > 0 && A[|A| - 1].End() == e.start)
    ensures Run(TailProgram(A, e), 0, State(img, A + [e])) == Done(State(Truncate(img, e.start), A))
  {
    assert A + [e] == A + [e] + [];
    Starts(A, e, []);
    FindMid(A, e, []);
    RunTwo(TailProgram(A, e), State(img, A + [e]), State(Truncate(img, e.start), A + [e]), State(Truncate(img, e.start), A));
  }

  lemma ExecTailLink(A0: seq<Extent>, left: Extent, e: Extent, img: Image)
    requires |A0| > 0 ==> NotIn(A0[..|A0| - 1], A0[|A0| - 1].start)
    requires Linkable(img, A0)
    ensures Exec(if |A0| > 0 then UpdateSpareNext(A0[|A0| - 1], None) else UpdateInfoBlk(None), State(img, A0 + [left] + [e]))
      == Done(State(WithLink(img, A0, 0), A0 + [left] + [e]))
  {
    if |A0| > 0 {
      FindMid(A0[..|A0| - 1], A0[|A0| - 1], [left] + [e]);
      assert A0 + [left] + [e] == A0[..|A0| - 1] + [A0[|A0| - 1]] + ([left] + [e]);
    }
  }

  lemma DropTail(A0: seq<Extent>, left: Extent, e: Extent, img: Image)
    requires NotIn(A0, left.start) && NotIn(A0, e.start)
    ensures Exec(RemoveSpareRb(Some(left), Some(e), None), State(img, A0 + [left] + [e])) == Done(State(img, A0))
  {
    FindMid(A0, left, [e]);
    FindMid(A0, e, []);
    assert A0 + [e] == A0 + [e] + [];
  }

  lemma RunsTailJoined(A: seq<Extent>, e: Extent, img: Image)
    requires Ordered(A + [e])
    requires |A| > 0 && A[|A| - 1].End() == e.start
    requires Linkable(Truncate(img, A[|A| - 1].start), A[..|A| - 1])
    ensures var A0 := A[..|A| - 1];
      Run(TailProgram(A, e), 0, State(img, A + [e]))
      == Done(State(WithLink(Truncate(img, A[|A| - 1].start), A0, 0), A0))
  {
    var A0, left := A[..|A| - 1], A[|A| - 1];
    var s := A + [e];
    assert s == A + [e] + [] == A0 + [left] + [e];
    Starts(A, e, []);
    FindMid(A0, left, [e]);
    var i1 := Truncate(img, left.start);
    var i2 := WithLink(i1, A0, 0);
    ExecTailLink(A0, left, e, i1);
    assert NotIn(A0, e.start) by { assert forall i :: 0 <= i < |A0| ==> A0[i] == A[i]; }
    DropTail(A0, left, e, i2);
    RunThree(TailProgram(A, e), State(img, s), State(i1, s), State(i2, s), State(i2, A0));
  }

  /** All starts of A + [e] + B differ. */
  lemma Starts(A: seq<Extent>, e: Extent, B: seq<Extent>)
    requires Ordered(A + [e] + B)
    ensures NotIn(A, e.start) && NotIn(A + [e], StartOf(At(B, 0)))
    ensures |A| > 0 ==> NotIn(A[..|A| - 1], A[|A| - 1].start)
    ensures |A| > 1 ==> NotIn(A[..|A| - 1][..|A| - 2], A[|A| - 2].start)
    ensures |B| > 1 ==> NotIn(A + [e] + [B[0]], B[1].start)
  {
    var s := A + [e] + B;
    assert forall i :: 0 <= i < |A| ==> s[i] == A[i];
    assert s[|A|] == e;
    assert forall i :: 0 <= i < |B| ==> s[|A| + 1 + i] == B[i];
  }

  predicate NotIn(X: seq<Extent>, a: nat) {
    forall i :: 0 <= i < |X| ==> X[i].start != a
  }

  lemma FindMid(X: seq<Extent>, m: Extent, Y: seq<Extent>)
    requires NotIn(X, m.start)
    ensures Find(X + [m] + Y, m.start) == |X|
    ensures Without(X + [m] + Y, Some(m)) == X + Y
  {
    var s := X + [m] + Y;
    var i := Find(s, m.start);
    assert s[|X|] == m;
    assert i <= |X|;
    assert forall j :: 0 <= j < |X| ==> s[j] == X[j];
    assert s[..|X|] == X && s[|X| + 1..] == Y;
  }

  // ---------------------------------------------------------------- the thirteen branches

  lemma SetActionsShape(A: seq<Extent>, e: Extent, B: seq<Extent>, dbSize: nat)
    ensures SetActions(ContextOf(A, e, B, dbSize)) ==
      if |B| == 0 && e.End() == dbSize then TailProgram(A, e)
      else if |A| > 0 && A[|A| - 1].End() == e.start then LeftJoinProgram(A[|A| - 1], e, B)
      else FreshProgram(A, e, B)
  {
  }

  /** The last byte of the file is live, so only a freed last extent makes its hole the tail. */
  lemma TailOnly(A: seq<Extent>, e: Extent, B: seq<Extent>, live: map<nat, nat>, end: nat)
    requires Around(A, e, B, live, end)
    ensures Join(A, e, B).hole.End() == end <==> |B| == 0 && e.End() == end
  {
    if |B| > 0 && e.End() == B[0].start && B[0].End() == end {
      assert (A + B)[|A|] == B[0];
      assert (A + B)[|A|].Has(end - 1);
    }
  }

  lemma LeftJoinChain(A: seq<Extent>, e: Extent, B: seq<Extent>, img: Image)
    requires |A| > 0 && A[|A| - 1].End() == e.start
    requires Linked(img, A, StartOf(At(B, 0))) && Linked(img, B, 0) && img.spareChain == A[0].start
    requires var c := Join(A, e, B); Separated(c.before + [c.hole] + c.after)
    ensures var c := Join(A, e, B); ChainOK(WithHole(img, c), c.before + [c.hole] + c.after)
  {
    var c := Join(A, e, B);
    HoleAfterLinked(A, e, B, img);
    assert A == c.before + [A[|A| - 1]];
    LinkedConcat(img, c.before, [A[|A| - 1]], StartOf(At(B, 0)));
    HoleInPlace(img, c);
    assert (c.before + [c.hole] + c.after)[0].start == A[0].start;
  }

  lemma FreshChain(A: seq<Extent>, e: Extent, B: seq<Extent>, img: Image)
    requires !(|A| > 0 && A[|A| - 1].End() == e.start)
    requires Linked(img, A, StartOf(At(B, 0))) && Linked(img, B, 0) && img.spareChain == StartOf(At(A + B, 0))
    requires var c := Join(A, e, B); Separated(c.before + [c.hole] + c.after)
    ensures var c := Join(A, e, B);
      Linkable(WithHole(img, c), A) && ChainOK(WithLink(WithHole(img, c), A, e.start), c.before + [c.hole] + c.after)
  {
    var c := Join(A, e, B);
    HoleAfterLinked(A, e, B, img);
    assert c.before == A && c.hole.start == e.start;
    if |A| > 0 {
      HoleRelinked(img, c, StartOf(At(B, 0)));
      assert (c.before + [c.hole] + c.after)[0] == A[0] == (A + B)[0];
    } else {
      HoleInPlace(img, c);
      var i2 := WithLink(WithHole(img, c), A, e.start);
      var s := c.before + [c.hole] + c.after;
      forall i | 0 <= i < |s| ensures LinkAt(i2, s, i, 0) { assert LinkAt(WithHole(img, c), s, i, 0); }
      assert s[0] == c.hole;
    }
  }

  lemma FreeJoinsLeft(A: seq<Extent>, e: Extent, B: seq<Extent>, img: Image, live: map<nat, nat>)
    requires Ready(A, e, B, img, live)
    requires |A| > 0 && A[|A| - 1].End() == e.start
    requires !(|B| == 0 && e.End() == img.size)
    ensures Freed(Run(LeftJoinProgram(A[|A| - 1], e, B), 0, State(img, A + [e] + B)), A, e, B, img.size)
  {
    Nodes(A, e, B, img, live);
    JoinSeparated(A, e, B, live, img.size);
    TailOnly(A, e, B, live, img.size);
    assert (A + B)[0] == A[0];
    LeftJoinChain(A, e, B, img);
    RunsLeftJoin(A, e, B, img);
    assert WithHole(img, Join(A, e, B)).size == img.size;
  }

  lemma FreeFresh(A: seq<Extent>, e: Extent, B: seq<Extent>, img: Image, live: map<nat, nat>)
    requires Ready(A, e, B, img, live)
    requires !(|A| > 0 && A[|A| - 1].End() == e.start)
    requires !(|B| == 0 && e.End() == img.size)
    ensures Freed(Run(FreshProgram(A, e, B), 0, State(img, A + [e] + B)), A, e, B, img.size)
  {
    Nodes(A, e, B, img, live);
    JoinSeparated(A, e, B, live, img.size);
    TailOnly(A, e, B, live, img.size);
    FreshChain(A, e, B, img);
    RunsFresh(A, e, B, img);
    assert WithHole(img, Join(A, e, B)).size == img.size;
  }

  lemma HoleAfterLinked(A: seq<Extent>, e: Extent, B: seq<Extent>, img: Image)
    requires Linked(img, B, 0)
    ensures Linked(img, Join(A, e, B).after, 0)
  {
    var c := Join(A, e, B);
    if c.after != B {
      assert B == [B[0]] + c.after;
      LinkedConcat(img, [B[0]], c.after, 0);
    }
  }

  lemma LinkedTruncate(img: Image, s: seq<Extent>, last: nat, size: nat)
    requires Linked(img, s, last) && Ordered(s)
    requires forall i :: 0 <= i < |s| ==> s[i].End() <= size
    ensures Linked(Truncate(img, size), s, last)
  {
    forall i | 0 <= i < |s| ensures LinkAt(Truncate(img, size), s, i, last) { assert LinkAt(img, s, i, last); }
  }

  lemma TailJoinedChain(A0: seq<Extent>, left: Extent, img: Image)
    requires Separated(A0 + [left]) && ChainOK(img, A0 + [left])
    ensures var i1 := Truncate(img, left.start);
      Linkable(i1, A0) && ChainOK(WithLink(i1, A0, 0), A0)
  {
    var A := A0 + [left];
    assert forall i :: 0 <= i < |A0| ==> A[i] == A0[i];
    assert A[|A0|] == left;
    LinkedConcat(img, A0, [left], 0);
    LinkedTruncate(img, A0, left.start, left.start);
    if |A0| > 0 { LinkedRelink(Truncate(img, left.start), A0, left.start, 0); }
  }

  lemma FreeCutsJoined(A: seq<Extent>, e: Extent, img: Image, live: map<nat, nat>)
    requires Ready(A, e, [], img, live)
    requires e.End() == img.size && |A| > 0 && A[|A| - 1].End() == e.start
    ensures Freed(Run(TailProgram(A, e), 0, State(img, A + [e])), A, e, [], img.size)
  {
    Nodes(A, e, [], img, live);
    AroundParts(A, e, [], live, img.size);
    TailOnly(A, e, [], live, img.size);
    assert A + [] == A && A + [e] + [] == A + [e];
    var A0, left := A[..|A| - 1], A[|A| - 1];
    assert A == A0 + [left];
    TailJoinedChain(A0, left, img);
    RunsTailJoined(A, e, img);
  }

  lemma FreeCutsAlone(A: seq<Extent>, e: Extent, img: Image, live: map<nat, nat>)
    requires Ready(A, e, [], img, live)
    requires e.End() == img.size && !(|A| > 0 && A[|A| - 1].End() == e.start)
    ensures Freed(Run(TailProgram(A, e), 0, State(img, A + [e])), A, e, [], img.size)
  {
    Nodes(A, e, [], img, live);
    AroundParts(A, e, [], live, img.size);
    TailOnly(A, e, [], live, img.size);
    assert A + [] == A && A + [e] + [] == A + [e];
    LinkedTruncate(img, A, 0, e.start);
    RunsTailAlone(A, e, img);
  }

  /** All thirteen branches: the program of a free runs to its End without following a
      dangling pointer, and leaves the joined free extents both in memory and in the
      chain on disk. */
  lemma FreeRuns(A: seq<Extent>, e: Extent, B: seq<Extent>, img: Image, live: map<nat, nat>)
    requires Ready(A, e, B, img, live)
    ensures Freed(Run(SetActions(ContextOf(A, e, B, img.size)), 0, State(img, A + [e] + B)), A, e, B, img.size)
  {
    SetActionsShape(A, e, B, img.size);
    if |B| == 0 && e.End() == img.size {
      assert B == [] && A + [e] + B == A + [e];
      if |A| > 0 && A[|A| - 1].End() == e.start { FreeCutsJoined(A, e, img, live); } else { FreeCutsAlone(A, e, img, live); }
    } else {
      if |A| > 0 && A[|A| - 1].End() == e.start { FreeJoinsLeft(A, e, B, img, live); } else { FreeFresh(A, e, B, img, live); }
    }
  }

  // ---------------------------------------------------------------- live blocks are left alone

  /** The header of every spare in the tree lies outside the live extents. */
  ghost predicate HeadersFree(s: seq<Extent>, live: map<nat, nat>) {
    forall e, a :: e in s && a in live ==> Apart(e.start, SPARE_SIZE, a, live[a])
  }

  /** Truncations of the program cut behind the last live extent. */
  ghost predicate CutsBehind(p: Program, live: map<nat, nat>) {
    forall k, a :: 0 <= k < |p| && p[k].DbTruncate? && a in live ==> a + live[a] <= p[k].at.start
  }

  lemma WriteSpareKeeps(first: Extent, last: Extent, next: Node, st: State, update: bool, live: map<nat, nat>)
    requires WriteSpare(first, last, next, st, update).Done?
    requires HeadersFree(st.spares, live)
    ensures var st' := WriteSpare(first, last, next, st, update).st;
      Keeps(st.img, st'.img, live) && HeadersFree(st'.spares, live)
  {
  }

  lemma WithoutKeeps(s: seq<Extent>, n: Node, live: map<nat, nat>)
    requires HeadersFree(s, live)
    ensures HeadersFree(Without(s, n), live)
  {
  }

  lemma ExecKeeps(op: Op, st: State, live: map<nat, nat>)
    requires Exec(op, st).Done?
    requires HeadersFree(st.spares, live)
    requires op.DbTruncate? ==> forall a :: a in live ==> a + live[a] <= op.at.start
    requires forall a :: a in live ==> DISK_SIZE_UNIT <= live[a]
    ensures Keeps(st.img, Exec(op, st).st.img, live)
    ensures HeadersFree(Exec(op, st).st.spares, live)
  {
    match op
    case CreateNewSpare(first, last, next) => WriteSpareKeeps(first, last, next, st, false, live);
    case UpdateExistSpare(first, last, next) => WriteSpareKeeps(first, last, next, st, true, live);
    case UpdateSpareNext(target, newNext) => assert st.spares[Find(st.spares, target.start)] in st.spares;
    case RemoveSpareRb(a, b, c) =>
      WithoutKeeps(st.spares, a, live);
      WithoutKeeps(Without(st.spares, a), b, live);
      WithoutKeeps(Without(Without(st.spares, a), b), c, live);
    case _ =>
  }

  lemma ProgramCutsBehind(A: seq<Extent>, e: Extent, B: seq<Extent>, live: map<nat, nat>, end: nat)
    requires Around(A, e, B, live, end)
    ensures CutsBehind(SetActions(ContextOf(A, e, B, end)), live - {e.start})
  {
    SetActionsShape(A, e, B, end);
    FreeCanonical(A, e, B, live, end);
    TailOnly(A, e, B, live, end);
  }

  // ---------------------------------------------------------------- the chain under allocation

  /** Taking a node out of the chain rewrites the one link to it. */
  lemma UnlinkChain(img: Image, A: seq<Extent>, e: Extent, B: seq<Extent>)
    requires ChainOK(img, A + [e] + B) && Separated(A + [e] + B)
    ensures Linkable(img, A)
    ensures ChainOK(WithLink(img, A, StartOf(At(B, 0))), A + B)
  {
    var s := A + [e] + B;
    assert s == A + ([e] + B);
    LinkedConcat(img, A, [e] + B, 0);
    LinkedConcat(img, [e], B, 0);
    if |A| > 0 {
      UnlinkInside(img, A, e, B);
    } else {
      var img' := WithLink(img, A, StartOf(At(B, 0)));
      forall i | 0 <= i < |B| ensures LinkAt(img', B, i, 0) { assert LinkAt(img, B, i, 0); }
      assert A + B == B;
    }
  }

  lemma UnlinkInside(img: Image, A: seq<Extent>, e: Extent, B: seq<Extent>)
    requires Separated(A + [e] + B) && |A| > 0
    requires Linked(img, A, e.start) && Linked(img, B, 0) && img.spareChain == A[0].start
    ensures Linkable(img, A)
    ensures ChainOK(WithLink(img, A, StartOf(At(B, 0))), A + B)
  {
    var s := A + [e] + B;
    var next := StartOf(At(B, 0));
    assert Ordered(A) by { assert forall i :: 0 <= i < |A| ==> A[i] == s[i]; }
    assert forall i :: 0 <= i < |B| ==> B[i] == s[|A| + 1 + i];
    assert A[|A| - 1] == s[|A| - 1];
    LinkedRelink(img, A, e.start, next);
    LinkedFrame(img, B, 0, A[|A| - 1].start, next);
    LinkedConcat(WithLink(img, A, next), A, B, 0);
  }

  /** Shortening a spare in place leaves the links as they are. */
  lemma ShrinkChain(img: Image, s: seq<Extent>, k: nat, length: nat)
    requires ChainOK(img, s) && Separated(s) && k < |s|
    ensures IsSpare(img, s[k].start)
    ensures ChainOK(SetSpareLength(img, s[k].start, length), s[k := Extent(s[k].start, length)])
  {
    assert LinkAt(img, s, k, 0);
    var s' := s[k := Extent(s[k].start, length)];
    var img' := SetSpareLength(img, s[k].start, length);
    forall i | 0 <= i < |s'| ensures LinkAt(img', s', i, 0) {
      assert LinkAt(img, s, i, 0);
      assert i != k ==> s[i].start != s[k].start;
    }
  }

  /** Writes that stay off the headers of the spares leave the chain as it is. */
  lemma ChainFrame(img: Image, img': Image, s: seq<Extent>)
    requires ChainOK(img, s) && img'.spareChain == img.spareChain
    requires forall i :: 0 <= i < |s| && s[i].start in img.blocks ==>
      s[i].start in img'.blocks && img'.blocks[s[i].start] == img.blocks[s[i].start]
    ensures ChainOK(img', s)
  {
    forall i | 0 <= i < |s| ensures LinkAt(img', s, i, 0) { assert LinkAt(img, s, i, 0); }
  }
}
