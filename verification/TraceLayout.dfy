/**
 The staging layout of the semantic trace: six sections of 32-bit little-endian words, laid out back to
 back, and the decoder that reads them. A float is its bit pattern, so words stand for `f32` and `u32`.
 */
module TraceLayout {
  import opened Machine
  import opened Arithmetic

  type Word = w: int | 0 <= w < 0x1_0000_0000

  /** The error messages: invalid arguments, the quantity that overflowed, or a buffer that is too short. */
  datatype Refusal =
    | InvalidGeometry | RouterInputBytes | RawLogitsBytes | SelectedIdsOffset | SelectedIdsBytes
    | SelectedWeightsOffset | SelectedWeightsBytes | RouteOutputsOffset | RouteOutputsElements
    | RouteOutputsBytes | RoutedMoeOutputOffset | RoutedMoeOutputBytes | TotalSize | ShortBuffer

  datatype Outcome<+T> = Good(value: T) | Bad(reason: Refusal) {
    predicate IsFailure() { Bad? }

    function PropagateFailure<U>(): Outcome<U>
      requires Bad?
    {
      Bad(reason)
    }

    function Extract(): T
      requires Good?
    {
      value
    }
  }

  datatype Geometry = Geometry(numLayers: nat, dModel: nat, numExperts: nat, topK: nat)

  /** One section: where it starts and how many bytes it has. */
  datatype Section = Section(offset: nat, bytes: nat)

  datatype Layout = Layout(
    targetLayer: nat, dModel: nat, numExperts: nat, topK: nat,
    routerInput: Section, rawLogits: Section, selectedIds: Section, selectedWeights: Section,
    routeOutputs: Section, routedMoeOutput: Section, totalBytes: nat)
  {
    function Sections(): seq<Section> {
      [routerInput, rawLogits, selectedIds, selectedWeights, routeOutputs, routedMoeOutput]
    }

    /** The number of words in each section, in order. */
    function Counts(): seq<nat> { [dModel, numExperts, topK, topK, Product(topK, dModel), dModel] }

    /** Back to back from 0 to the end, each as long as its words. */
    ghost predicate Tiled() {
      && dModel > 0 && BackToBack(Sections())
      && (forall i :: 0 <= i < 6 ==> Sections()[i].bytes == 4 * Counts()[i])
      && totalBytes == End(Sections()[5])
    }
  }

  function End(s: Section): nat { s.offset + s.bytes }

  /** The first section starts at 0 and each other starts where the one before it ends. */
  ghost predicate BackToBack(s: seq<Section>) {
    (|s| > 0 ==> s[0].offset == 0) && forall i :: 0 < i < |s| ==> s[i].offset == End(s[i - 1])
  }

  function Product(a: nat, b: nat): nat { a * b }

  function CheckedMul(a: nat, b: nat, reason: Refusal): Outcome<nat> {
    if Product(a, b) < U64_SPAN then Good(Product(a, b)) else Bad(reason)
  }

  /** The size of `elements` 32-bit words. */
  function WordBytes(elements: nat, reason: Refusal): Outcome<nat> {
    if elements * 4 < U64_SPAN then Good(elements * 4) else Bad(reason)
  }

  function CheckedAdd(a: nat, b: nat, reason: Refusal): Outcome<nat> {
    if a + b < U64_SPAN then Good(a + b) else Bad(reason)
  }

  predicate Accepts(g: Geometry, targetLayer: nat) {
    !(targetLayer >= g.numLayers || g.dModel == 0 || g.numExperts == 0 || g.topK == 0 || g.topK > g.numExperts)
  }

  /** `try_new`, overflow checks in source order. */
  function TryNew(g: Geometry, targetLayer: nat): Outcome<Layout> {
    if !Accepts(g, targetLayer) then Bad(InvalidGeometry)
    else
      var input :- WordBytes(g.dModel, RouterInputBytes);
      var logits :- WordBytes(g.numExperts, RawLogitsBytes);
      var idsAt :- CheckedAdd(input, logits, SelectedIdsOffset);
      var ids :- WordBytes(g.topK, SelectedIdsBytes);
      var weightsAt :- CheckedAdd(idsAt, ids, SelectedWeightsOffset);
      var weights :- WordBytes(g.topK, SelectedWeightsBytes);
      var outputsAt :- CheckedAdd(weightsAt, weights, RouteOutputsOffset);
      var elements :- CheckedMul(g.topK, g.dModel, RouteOutputsElements);
      var outputs :- WordBytes(elements, RouteOutputsBytes);
      var moeAt :- CheckedAdd(outputsAt, outputs, RoutedMoeOutputOffset);
      var moe :- WordBytes(g.dModel, RoutedMoeOutputBytes);
      var total :- CheckedAdd(moeAt, moe, TotalSize);
      Good(Layout(targetLayer, g.dModel, g.numExperts, g.topK,
                  Section(0, input), Section(input, logits), Section(idsAt, ids),
                  Section(weightsAt, weights), Section(outputsAt, outputs), Section(moeAt, moe), total))
  }

  function TotalBytes(g: Geometry): nat { 4 * (2 * g.dModel + g.numExperts + 2 * g.topK + Product(g.topK, g.dModel)) }

  /** A geometry is accepted exactly when it is valid and the whole trace fits in 64 bits: no intermediate
      check rejects more. */
  lemma AcceptedExactlyWhenItFits(g: Geometry, targetLayer: nat)
    ensures TryNew(g, targetLayer).Good? <==>
      && targetLayer < g.numLayers && g.dModel > 0 && g.numExperts > 0 && 0 < g.topK <= g.numExperts
      && TotalBytes(g) < U64_SPAN
  {
    hide Product;
  }

  /** What is accepted tiles a staging buffer of exactly the computed size. */
  lemma AcceptedTiles(g: Geometry, targetLayer: nat)
    requires TryNew(g, targetLayer).Good?
    ensures var l := TryNew(g, targetLayer).value;
      && l.Tiled() && l.totalBytes == TotalBytes(g) && l.targetLayer == targetLayer
      && l.dModel == g.dModel && l.numExperts == g.numExperts && l.topK == g.topK
  {
    hide Product;
    var l := TryNew(g, targetLayer).value;
    var s := l.Sections();
    assert s[1].offset == End(s[0]) && s[2].offset == End(s[1]) && s[3].offset == End(s[2]);
    assert s[4].offset == End(s[3]) && s[5].offset == End(s[4]);
    assert forall i :: 0 <= i < 6 ==> s[i].bytes == 4 * l.Counts()[i];
  }

  predicate Inside(s: Section, at: nat) { s.offset <= at < End(s) }

  lemma {:induction false} LaterSectionsStartLater(s: seq<Section>, i: nat, j: nat)
    requires BackToBack(s) && i < j < |s|
    ensures End(s[i]) <= s[j].offset
  {
    if i < j - 1 {
      LaterSectionsStartLater(s, i, j - 1);
    }
  }

  lemma {:induction false} SectionsAligned(s: seq<Section>, n: nat)
    requires BackToBack(s) && n < |s| && forall i :: 0 <= i < |s| ==> s[i].bytes % 4 == 0
    ensures s[n].offset % 4 == 0
  {
    if n > 0 {
      SectionsAligned(s, n - 1);
    }
  }

  lemma {:induction false} SectionsCover(s: seq<Section>, n: nat, at: nat)
    requires BackToBack(s) && n < |s|
    ensures at < End(s[n]) <==> exists i :: 0 <= i <= n && Inside(s[i], at)
  {
    if n > 0 {
      SectionsCover(s, n - 1, at);
      assert at < End(s[n]) && at >= End(s[n - 1]) ==> Inside(s[n], at);
    } else {
      assert at < End(s[0]) ==> Inside(s[0], at);
    }
  }

  /** Every byte of the buffer, and no other, is in a section; sections are disjoint and word-aligned. */
  lemma SectionsPartition(l: Layout, at: nat)
    requires l.Tiled()
    ensures at < l.totalBytes <==> exists i :: 0 <= i < 6 && Inside(l.Sections()[i], at)
    ensures forall i, j :: 0 <= i < j < 6 ==> !(Inside(l.Sections()[i], at) && Inside(l.Sections()[j], at))
    ensures forall i :: 0 <= i < 6 ==> l.Sections()[i].offset % 4 == 0
  {
    hide Inside, BackToBack;
    var s := l.Sections();
    SectionsCover(s, 5, at);
    forall i, j | 0 <= i < j < 6
      ensures !(Inside(s[i], at) && Inside(s[j], at))
    {
      DisjointSections(s, i, j, at);
    }
    forall i | 0 <= i < 6
      ensures s[i].offset % 4 == 0
    {
      SectionsAligned(s, i);
    }
  }

  lemma DisjointSections(s: seq<Section>, i: nat, j: nat, at: nat)
    requires BackToBack(s) && i < j < |s|
    ensures !(Inside(s[i], at) && Inside(s[j], at))
  {
    LaterSectionsStartLater(s, i, j);
  }

  /** The offsets, in words. */
  lemma SectionsFit(l: Layout)
    requires l.Tiled()
    ensures l.routerInput.offset == 0 && l.rawLogits.offset == 4 * l.dModel
    ensures l.selectedIds.offset == l.rawLogits.offset + 4 * l.numExperts
    ensures l.selectedWeights.offset == l.selectedIds.offset + 4 * l.topK
    ensures l.routeOutputs.offset == l.selectedWeights.offset + 4 * l.topK
    ensures l.routedMoeOutput.offset == l.routeOutputs.offset + 4 * (l.topK * l.dModel)
    ensures l.totalBytes == l.routedMoeOutput.offset + 4 * l.dModel
  {
    var s, c := l.Sections(), l.Counts();
    assert s[0].bytes == 4 * c[0] && s[1].bytes == 4 * c[1] && s[2].bytes == 4 * c[2]
        && s[3].bytes == 4 * c[3] && s[4].bytes == 4 * c[4] && s[5].bytes == 4 * c[5];
    assert s[0].offset == 0 && s[1].offset == End(s[0]) && s[2].offset == End(s[1]) && s[3].offset == End(s[2]);
    assert s[4].offset == End(s[3]) && s[5].offset == End(s[4]);
  }

  // ----- Words and bytes

  function WordAt(bytes: seq<Byte>, at: nat): Word
    requires at + 4 <= |bytes|
  {
    var b0: int, b1: int, b2: int, b3: int := bytes[at], bytes[at + 1], bytes[at + 2], bytes[at + 3];
    b0 + 0x100 * b1 + 0x1_0000 * b2 + 0x100_0000 * b3
  }

  function ByteOf(w: Word, r: nat): Byte
    requires r < 4
  {
    var x: int := w;
    if r == 0 then x % 0x100
    else if r == 1 then x / 0x100 % 0x100
    else if r == 2 then x / 0x1_0000 % 0x100
    else x / 0x100_0000
  }

  /** `chunks_exact(4)` from `offset`, decoded little-endian. */
  function WordsAt(bytes: seq<Byte>, offset: nat, count: nat): (r: seq<Word>)
    requires offset + 4 * count <= |bytes|
    ensures |r| == count
  {
    seq(count, i requires 0 <= i < count => WordAt(bytes, offset + 4 * i))
  }

  function BytesOf(ws: seq<Word>): (r: seq<Byte>)
    ensures |r| == 4 * |ws|
  {
    seq(4 * |ws|, i requires 0 <= i < 4 * |ws| => ByteOf(ws[i / 4], i % 4))
  }

  lemma WordFromBytes(w: Word)
    ensures WordAt([ByteOf(w, 0), ByteOf(w, 1), ByteOf(w, 2), ByteOf(w, 3)], 0) == w
  {
    var x: int := w;
    var y, z := x / 0x100, x / 0x1_0000;
    assert x == 0x100 * y + x % 0x100;
    assert y == 0x100 * z + y % 0x100;
    assert z == 0x100 * (x / 0x100_0000) + z % 0x100;
  }

  lemma BytesFromWord(bytes: seq<Byte>, at: nat, r: nat)
    requires at + 4 <= |bytes| && r < 4
    ensures ByteOf(WordAt(bytes, at), r) == bytes[at + r]
  {
    var b0: int, b1: int, b2: int, b3: int := bytes[at], bytes[at + 1], bytes[at + 2], bytes[at + 3];
    var x: int := WordAt(bytes, at);
    Quotient(x, 0x100, b0, b1 + 0x100 * b2 + 0x1_0000 * b3);
    Quotient(b1 + 0x100 * b2 + 0x1_0000 * b3, 0x100, b1, b2 + 0x100 * b3);
    Quotient(x, 0x1_0000, b0 + 0x100 * b1, b2 + 0x100 * b3);
    Quotient(b2 + 0x100 * b3, 0x100, b2, b3);
    Quotient(x, 0x100_0000, b0 + 0x100 * b1 + 0x1_0000 * b2, b3);
  }

  /** Decoding an encoding, followed by anything. */
  lemma WordsOfBytes(ws: seq<Word>, rest: seq<Byte>)
    ensures WordsAt(BytesOf(ws) + rest, 0, |ws|) == ws
  {
    var bytes := BytesOf(ws) + rest;
    forall i | 0 <= i < |ws|
      ensures WordAt(bytes, 4 * i) == ws[i]
    {
      hide ByteOf;
      WordFromBytes(ws[i]);
      forall r: nat | r < 4
        ensures bytes[4 * i + r] == ByteOf(ws[i], r)
      {
        assert (4 * i + r) / 4 == i && (4 * i + r) % 4 == r;
      }
      assert bytes[4 * i + 0] == ByteOf(ws[i], 0) && bytes[4 * i + 1] == ByteOf(ws[i], 1);
      assert bytes[4 * i + 2] == ByteOf(ws[i], 2) && bytes[4 * i + 3] == ByteOf(ws[i], 3);
    }
  }

  /** Encoding a decoding. */
  lemma BytesOfWords(bytes: seq<Byte>, count: nat)
    requires 4 * count <= |bytes|
    ensures BytesOf(WordsAt(bytes, 0, count)) == bytes[..4 * count]
  {
    hide ByteOf, WordAt;
    forall i | 0 <= i < 4 * count
      ensures BytesOf(WordsAt(bytes, 0, count))[i] == bytes[i]
    {
      BytesFromWord(bytes, 4 * (i / 4), i % 4);
    }
  }

  // ----- The trace

  datatype Trace = Trace(
    routerInput: seq<Word>, rawLogits: seq<Word>, selectedIds: seq<Word>, selectedWeights: seq<Word>,
    routeOutputs: seq<seq<Word>>, routedMoeOutput: seq<Word>)
  {
    ghost predicate Fits(l: Layout) {
      && |routerInput| == l.dModel && |rawLogits| == l.numExperts && |selectedIds| == l.topK
      && |selectedWeights| == l.topK && |routedMoeOutput| == l.dModel
      && |routeOutputs| == l.topK && (forall i :: 0 <= i < l.topK ==> |routeOutputs[i]| == l.dModel)
    }

    /** The words of the trace in section order. */
    function Words(): seq<Word> {
      routerInput + rawLogits + selectedIds + selectedWeights + Flatten(routeOutputs) + routedMoeOutput
    }
  }

  function Flatten(rows: seq<seq<Word>>): seq<Word> {
    if rows == [] then [] else rows[0] + Flatten(rows[1..])
  }

  /** `chunks_exact(width)`: whole rows only. */
  function Rows(flat: seq<Word>, width: nat): seq<seq<Word>>
    requires width > 0
  {
    if |flat| < width then [] else [flat[..width]] + Rows(flat[width..], width)
  }

  lemma {:induction false} RowsOfFlatten(rows: seq<seq<Word>>, width: nat)
    requires width > 0 && forall i :: 0 <= i < |rows| ==> |rows[i]| == width
    ensures |Flatten(rows)| == |rows| * width && Rows(Flatten(rows), width) == rows
  {
    if rows != [] {
      RowsOfFlatten(rows[1..], width);
      assert |rows| * width == width + |rows[1..]| * width;
      assert Flatten(rows)[..width] == rows[0] && Flatten(rows)[width..] == Flatten(rows[1..]);
    }
  }

  lemma {:induction false} FlattenOfRows(flat: seq<Word>, width: nat, count: nat)
    requires width > 0 && |flat| == count * width
    ensures Flatten(Rows(flat, width)) == flat && |Rows(flat, width)| == count
    ensures forall i :: 0 <= i < count ==> |Rows(flat, width)[i]| == width
    decreases count
  {
    if count > 0 {
      assert count * width == width + (count - 1) * width;
      FlattenOfRows(flat[width..], width, count - 1);
      assert flat == flat[..width] + flat[width..];
      var rest := Rows(flat[width..], width);
      assert Rows(flat, width) == [flat[..width]] + rest && Rows(flat, width)[1..] == rest;
    } else {
      assert flat == [];
    }
  }

  /** Route output `i` is the `i`-th row of its section. */
  lemma {:induction false} RowIs(flat: seq<Word>, width: nat, count: nat, i: nat)
    requires width > 0 && |flat| == count * width && i < count
    ensures 0 <= i * width && i * width + width <= |flat|
    ensures |Rows(flat, width)| == count && Rows(flat, width)[i] == flat[i * width..i * width + width]
    decreases count
  {
    FlattenOfRows(flat, width, count);
    assert count * width == width + (count - 1) * width;
    if i > 0 {
      RowIs(flat[width..], width, count - 1, i - 1);
      assert i * width == width + (i - 1) * width;
    }
  }

  /** `parse`. */
  function Parse(l: Layout, bytes: seq<Byte>): Outcome<Trace>
    requires l.Tiled()
  {
    if |bytes| < l.totalBytes then Bad(ShortBuffer)
    else
      SectionsFit(l);
      Good(Trace(
        WordsAt(bytes, l.routerInput.offset, l.dModel),
        WordsAt(bytes, l.rawLogits.offset, l.numExperts),
        WordsAt(bytes, l.selectedIds.offset, l.topK),
        WordsAt(bytes, l.selectedWeights.offset, l.topK),
        Rows(WordsAt(bytes, l.routeOutputs.offset, l.topK * l.dModel), l.dModel),
        WordsAt(bytes, l.routedMoeOutput.offset, l.dModel)))
  }

  lemma WordsSlice(bytes: seq<Byte>, at: nat, n: nat, m: nat)
    requires at + 4 * (n + m) <= |bytes|
    ensures WordsAt(bytes, at, n + m) == WordsAt(bytes, at, n) + WordsAt(bytes, at + 4 * n, m)
  {
    hide WordAt;
  }

  /** The sections together are the whole buffer, read as words. */
  lemma SectionsAreWords(l: Layout, bytes: seq<Byte>)
    requires l.Tiled() && |bytes| >= l.totalBytes
    ensures var n := l.dModel + l.numExperts + l.topK + l.topK + l.topK * l.dModel + l.dModel;
      && l.totalBytes == 4 * n && Parse(l, bytes).Good? && Parse(l, bytes).value.Fits(l)
      && WordsAt(bytes, 0, n) == Parse(l, bytes).value.Words()
  {
    hide WordsAt, Rows, Flatten;
    SectionsFit(l);
    var t := Parse(l, bytes).value;
    var outputs := l.topK * l.dModel;
    FlattenOfRows(WordsAt(bytes, l.routeOutputs.offset, outputs), l.dModel, l.topK);
    WordsSlice(bytes, 0, l.dModel, l.numExperts);
    WordsSlice(bytes, 0, l.dModel + l.numExperts, l.topK);
    WordsSlice(bytes, 0, l.dModel + l.numExperts + l.topK, l.topK);
    WordsSlice(bytes, 0, l.dModel + l.numExperts + l.topK + l.topK, outputs);
    WordsSlice(bytes, 0, l.dModel + l.numExperts + l.topK + l.topK + outputs, l.dModel);
  }

  /** Reading a buffer and writing it again gives back its first `total_bytes` bytes: no byte of the buffer
      is ignored and none is read twice. */
  lemma EncodeInvertsParse(l: Layout, bytes: seq<Byte>)
    requires l.Tiled() && |bytes| >= l.totalBytes
    ensures Parse(l, bytes).Good? && BytesOf(Parse(l, bytes).value.Words()) == bytes[..l.totalBytes]
  {
    hide WordsAt, BytesOf, Parse;
    SectionsAreWords(l, bytes);
    BytesOfWords(bytes, l.totalBytes / 4);
  }

  /** The word at byte `at`: four bytes, the lowest first. */
  ghost predicate IsWordAt(w: Word, bytes: seq<Byte>, at: nat) {
    at + 4 <= |bytes| &&
    var b0: int, b1: int, b2: int, b3: int := bytes[at], bytes[at + 1], bytes[at + 2], bytes[at + 3];
    w as int == b0 + 256 * (b1 + 256 * (b2 + 256 * b3))
  }

  /** The words are those of the bytes from `offset` on. */
  ghost predicate ReadFrom(ws: seq<Word>, bytes: seq<Byte>, offset: nat) {
    forall i :: 0 <= i < |ws| ==> IsWordAt(ws[i], bytes, offset + 4 * i)
  }

  /** Where each part of the trace is read from. */
  lemma ParseReads(l: Layout, bytes: seq<Byte>)
    requires l.Tiled() && |bytes| >= l.totalBytes
    ensures Parse(l, bytes).Good? && Parse(l, bytes).value.Fits(l) && l.totalBytes >= 4 * l.dModel
    ensures var t, d, n, k := Parse(l, bytes).value, l.dModel, l.numExperts, l.topK;
      && ReadFrom(t.routerInput, bytes, 0)
      && ReadFrom(t.rawLogits, bytes, 4 * d)
      && ReadFrom(t.selectedIds, bytes, 4 * (d + n))
      && ReadFrom(t.selectedWeights, bytes, 4 * (d + n + k))
      && ReadFrom(t.routedMoeOutput, bytes, l.totalBytes - 4 * d)
  {
    ParsedParts(l, bytes);
    hide *;
    var d, n, k := l.dModel, l.numExperts, l.topK;
    WordsRead(bytes, 0, d);
    WordsRead(bytes, 4 * d, n);
    WordsRead(bytes, 4 * (d + n), k);
    WordsRead(bytes, 4 * (d + n + k), k);
    WordsRead(bytes, l.totalBytes - 4 * d, d);
  }

  lemma WordsRead(bytes: seq<Byte>, offset: nat, count: nat)
    requires offset + 4 * count <= |bytes|
    ensures ReadFrom(WordsAt(bytes, offset, count), bytes, offset)
  {
    hide IsWordAt, WordAt;
    forall i: nat | i < count
      ensures IsWordAt(WordAt(bytes, offset + 4 * i), bytes, offset + 4 * i)
    {
      WordIs(bytes, offset + 4 * i);
    }
  }

  lemma WordIs(bytes: seq<Byte>, at: nat)
    requires at + 4 <= |bytes|
    ensures IsWordAt(WordAt(bytes, at), bytes, at)
  {
  }

  lemma ParsedParts(l: Layout, bytes: seq<Byte>)
    requires l.Tiled() && |bytes| >= l.totalBytes
    ensures var d, n, k := l.dModel, l.numExperts, l.topK;
      && 4 * (d + n + 2 * k + d) <= l.totalBytes && Parse(l, bytes).Good?
      && Parse(l, bytes).value.Fits(l)
      && var t := Parse(l, bytes).value;
         && t.routerInput == WordsAt(bytes, 0, d) && t.rawLogits == WordsAt(bytes, 4 * d, n)
         && t.selectedIds == WordsAt(bytes, 4 * (d + n), k) && t.selectedWeights == WordsAt(bytes, 4 * (d + n + k), k)
         && t.routedMoeOutput == WordsAt(bytes, l.totalBytes - 4 * d, d)
  {
    hide Rows, WordsAt, Flatten;
    SectionsFit(l);
    FlattenOfRows(WordsAt(bytes, l.routeOutputs.offset, l.topK * l.dModel), l.dModel, l.topK);
    hide Layout.Tiled;
  }

  /** Component `j` of route output `i`. */
  lemma ParseReadsOutput(l: Layout, bytes: seq<Byte>, i: nat, j: nat)
    requires l.Tiled() && |bytes| >= l.totalBytes && i < l.topK && j < l.dModel
    ensures Parse(l, bytes).Good? && Parse(l, bytes).value.Fits(l)
    ensures IsWordAt(Parse(l, bytes).value.routeOutputs[i][j], bytes,
                     4 * (l.dModel + l.numExperts + 2 * l.topK + i * l.dModel + j))
  {
    hide Flatten, Rows, WordAt, IsWordAt;
    ParsedParts(l, bytes);
    SectionsFit(l);
    hide Layout.Tiled;
    RowIs(WordsAt(bytes, l.routeOutputs.offset, l.topK * l.dModel), l.dModel, l.topK, i);
    WordIs(bytes, l.routeOutputs.offset + 4 * (i * l.dModel + j));
  }

  /** Traces that fit a layout and hold the same words are the same trace. */
  lemma SameWordsSameTrace(l: Layout, t: Trace, t': Trace)
    requires l.dModel > 0 && t.Fits(l) && t'.Fits(l) && t.Words() == t'.Words()
    ensures t == t'
  {
    hide Rows, Flatten, Layout.Tiled;
    RowsOfFlatten(t.routeOutputs, l.dModel);
    RowsOfFlatten(t'.routeOutputs, l.dModel);
    var w, w' := t.routerInput + t.rawLogits, t'.routerInput + t'.rawLogits;
    var flat, flat' := Flatten(t.routeOutputs), Flatten(t'.routeOutputs);
    SplitBefore(w + t.selectedIds + t.selectedWeights + flat, t.routedMoeOutput,
                w' + t'.selectedIds + t'.selectedWeights + flat', t'.routedMoeOutput);
    SplitBefore(w + t.selectedIds + t.selectedWeights, flat, w' + t'.selectedIds + t'.selectedWeights, flat');
    SplitBefore(w + t.selectedIds, t.selectedWeights, w' + t'.selectedIds, t'.selectedWeights);
    SplitBefore(w, t.selectedIds, w', t'.selectedIds);
    SplitBefore(t.routerInput, t.rawLogits, t'.routerInput, t'.rawLogits);
  }

  lemma SplitBefore(a: seq<Word>, b: seq<Word>, a': seq<Word>, b': seq<Word>)
    requires |a| == |a'| && a + b == a' + b'
    ensures a == a' && b == b'
  {
    assert (a + b)[..|a|] == a && (a + b)[|a|..] == b;
    assert (a' + b')[..|a|] == a' && (a' + b')[|a|..] == b';
  }

  /** Parsing the encoding of a trace, with any padding after it, gives the trace back. */
  lemma ParseInvertsEncode(l: Layout, t: Trace, rest: seq<Byte>)
    requires l.Tiled() && t.Fits(l)
    ensures |BytesOf(t.Words())| == l.totalBytes && Parse(l, BytesOf(t.Words()) + rest) == Good(t)
  {
    hide WordsAt, BytesOf, Parse;
    SectionsFit(l);
    RowsOfFlatten(t.routeOutputs, l.dModel);
    var bytes := BytesOf(t.Words()) + rest;
    WordsOfBytes(t.Words(), rest);
    SectionsAreWords(l, bytes);
    SameWordsSameTrace(l, t, Parse(l, bytes).value);
  }
}
