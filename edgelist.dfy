/**
 * `readGraph`: the tab-separated edge-list reader that both driver scripts
 * define, character for character. A network file is a sequence of lines;
 * the result is the adjacency dictionary from a source compound to the
 * ordered list of its successor compounds, with Python's insertion order
 * kept as the sequence `keys`.
 */
module EdgeList {
  import opened PyStrings

  type Compound = string

  /** A Python dict `{source: [target, ...]}`; `keys` is its insertion order. */
  datatype Graph = Graph(keys: seq<Compound>, succ: map<Compound, seq<Compound>>)

  const EmptyGraph: Graph := Graph([], map[])

  /** The dictionary invariant: each key once, `keys` and the map agree,
      and a list exists only once something was appended to it. */
  ghost predicate Valid(g: Graph) {
    && (forall i, j :: 0 <= i < j < |g.keys| ==> g.keys[i] != g.keys[j])
    && (forall k :: k in g.succ <==> k in g.keys)
    && (forall k :: k in g.succ ==> g.succ[k] != [])
  }

  /** The successor list of `k`, empty when `k` is not a key. */
  function Successors(g: Graph, k: Compound): seq<Compound> {
    if k in g.succ then g.succ[k] else []
  }

  /** `graph.setdefault(x, []).append(y)`. */
  function AddEdge(g: Graph, x: Compound, y: Compound): (r: Graph)
    ensures forall k :: Successors(r, k) == if k == x then Successors(g, k) + [y] else Successors(g, k)
    ensures r.keys == if x in g.succ then g.keys else g.keys + [x]
    ensures Valid(g) ==> Valid(r)
  {
    if x in g.succ then Graph(g.keys, g.succ[x := g.succ[x] + [y]])
    else Graph(g.keys + [x], g.succ[x := [y]])
  }

  /** What the reader does with one line. */
  datatype LineKind = Skipped | Bad | Edge(source: Compound, target: Compound)

  /** The branches of the loop body, on `vals = line.strip().split("\t")`. */
  function Classify(line: string): LineKind {
    var vals := Split(Strip(line), '\t');
    if |vals[0]| == 0 || vals[0][0] == '#' then Skipped
    else if |vals| != 2 then Bad
    else Edge(vals[0], vals[1])
  }

  /** A line is skipped silently exactly when it is blank after stripping or
      its stripped text starts with `#`, whatever its field count. */
  lemma ClassifySkipped(line: string)
    ensures Classify(line) == Skipped <==> (Strip(line) == [] || Strip(line)[0] == '#')
  {
    var s := Strip(line);
    SplitFirstField(s, '\t');
    assert s != [] ==> !IsSpace(s[0]);
  }

  /** A line is reported as bad exactly when it is neither blank nor a comment
      and its stripped text does not hold exactly one tab. */
  lemma ClassifyBad(line: string)
    ensures Classify(line) == Bad <==>
      (Strip(line) != [] && Strip(line)[0] != '#' && Count(Strip(line), '\t') != 1)
  {
    ClassifySkipped(line);
  }

  /** A line yields the edge `x -> y` exactly when its stripped text is
      `x`, a tab, `y`, with tab-free fields and `x` neither empty nor a comment. */
  lemma ClassifyEdge(line: string, x: Compound, y: Compound)
    ensures Classify(line) == Edge(x, y) <==>
      (Strip(line) == x + ['\t'] + y && x != [] && x[0] != '#' && '\t' !in x && '\t' !in y)
  {
    var s := Strip(line);
    var vals := Split(s, '\t');
    if Classify(line) == Edge(x, y) {
      assert vals == [x, y];
      assert Join([x, y], '\t') == x + ['\t'] + Join([y], '\t');
      assert '\t' !in vals[0] && '\t' !in vals[1];
    }
    if s == x + ['\t'] + y && '\t' !in x && '\t' !in y {
      assert Join([x, y], '\t') == x + ['\t'] + Join([y], '\t');
      SplitOfJoin([x, y], '\t');
    }
  }

  /** A retained source is non-empty, tab-free and starts with neither
      whitespace nor `#`. */
  predicate WellFormedSource(x: Compound) {
    x != [] && '\t' !in x && !IsSpace(x[0]) && x[0] != '#'
  }

  /** A retained target is non-empty, tab-free and does not end in whitespace. */
  predicate WellFormedTarget(y: Compound) {
    y != [] && '\t' !in y && !IsSpace(y[|y| - 1])
  }

  /** No retained endpoint is ever empty: strip, the first-field test and the
      two-field test together guarantee well-formed endpoints. */
  lemma EdgeEndpoints(line: string)
    requires Classify(line).Edge?
    ensures WellFormedSource(Classify(line).source)
    ensures WellFormedTarget(Classify(line).target)
  {
    var s := Strip(line);
    var x, y := Classify(line).source, Classify(line).target;
    ClassifyEdge(line, x, y);
    assert s == x + ['\t'] + y;
    assert s[0] == x[0];
    assert !IsSpace(s[0]) && !IsSpace(s[|s| - 1]);
    if y != [] {
      assert s[|s| - 1] == y[|y| - 1];
    }
  }

  /** What the reader does with each line, in file order. */
  function Kinds(lines: seq<string>): (r: seq<LineKind>)
    ensures |r| == |lines| && forall i :: 0 <= i < |r| ==> r[i] == Classify(lines[i])
  {
    seq(|lines|, i requires 0 <= i < |lines| => Classify(lines[i]))
  }

  /** The effect of one line on the graph read so far. */
  function Apply(g: Graph, kind: LineKind): Graph {
    match kind
    case Edge(x, y) => AddEdge(g, x, y)
    case _ => g
  }

  /** The graph after lines of the given kinds, from an empty dict. */
  function Build(kinds: seq<LineKind>): (g: Graph)
    ensures Valid(g)
    decreases |kinds|
  {
    if kinds == [] then EmptyGraph
    else Apply(Build(kinds[..|kinds| - 1]), kinds[|kinds| - 1])
  }

  /** The edges among lines of the given kinds, in order. */
  function EdgesOf(kinds: seq<LineKind>): seq<(Compound, Compound)>
    decreases |kinds|
  {
    if kinds == [] then []
    else
      var es := EdgesOf(kinds[..|kinds| - 1]);
      match kinds[|kinds| - 1]
      case Edge(x, y) => es + [(x, y)]
      case _ => es
  }

  /** The graph `readGraph` returns after reading `lines`. */
  function Parse(lines: seq<string>): Graph {
    Build(Kinds(lines))
  }

  /** The accepted edges, in file order. */
  function Edges(lines: seq<string>): seq<(Compound, Compound)> {
    EdgesOf(Kinds(lines))
  }

  /** The lines reported with "Bad line: ", in file order, as read. */
  function BadLines(lines: seq<string>): seq<string>
    decreases |lines|
  {
    if lines == [] then []
    else
      var bs := BadLines(lines[..|lines| - 1]);
      if Classify(lines[|lines| - 1]) == Bad then bs + [lines[|lines| - 1]] else bs
  }

  /** The targets of the edges from `k`, in order, duplicates kept. */
  function TargetsOf(es: seq<(Compound, Compound)>, k: Compound): seq<Compound>
    decreases |es|
  {
    if es == [] then []
    else
      var ts := TargetsOf(es[..|es| - 1], k);
      if es[|es| - 1].0 == k then ts + [es[|es| - 1].1] else ts
  }

  /** The sources of the edges, in order. */
  function SourcesOf(es: seq<(Compound, Compound)>): seq<Compound>
    decreases |es|
  {
    if es == [] then [] else SourcesOf(es[..|es| - 1]) + [es[|es| - 1].0]
  }

  /** The distinct elements of `s` in order of first appearance. */
  function FirstOccurrences(s: seq<Compound>): seq<Compound>
    decreases |s|
  {
    if s == [] then []
    else
      var f := FirstOccurrences(s[..|s| - 1]);
      if s[|s| - 1] in f then f else f + [s[|s| - 1]]
  }

  /** Sum of the lengths of the lists of `ks` in `m`. */
  function SumLengths(ks: seq<Compound>, m: map<Compound, seq<Compound>>): nat
    decreases |ks|
  {
    if ks == [] then 0
    else SumLengths(ks[..|ks| - 1], m) + (if ks[|ks| - 1] in m then |m[ks[|ks| - 1]]| else 0)
  }

  /** Total number of successors over all keys. */
  function TotalSuccessors(g: Graph): nat {
    SumLengths(g.keys, g.succ)
  }

  /** Kinds of a file one line longer. */
  lemma KindsSnoc(lines: seq<string>, line: string)
    ensures Kinds(lines + [line]) == Kinds(lines) + [Classify(line)]
  {
  }

  /** Kinds of a prefix one line longer. */
  lemma KindsPrefix(lines: seq<string>, i: nat)
    requires i < |lines|
    ensures Kinds(lines[..i + 1]) == Kinds(lines[..i]) + [Classify(lines[i])]
  {
    assert lines[..i + 1] == lines[..i] + [lines[i]];
    KindsSnoc(lines[..i], lines[i]);
  }

  /** One more line: a skipped or bad line leaves the graph as it was; an
      accepted line `x\ty` appends `y` at the end of `x`'s list (creating the
      key `x` at the end of the key order when it is new) and changes nothing else. */
  lemma LineEffect(lines: seq<string>, line: string)
    ensures !Classify(line).Edge? ==> Parse(lines + [line]) == Parse(lines)
    ensures Classify(line).Edge? ==>
      var g, g', x := Parse(lines), Parse(lines + [line]), Classify(line).source;
      && g'.keys == (if x in g.keys then g.keys else g.keys + [x])
      && forall k :: Successors(g', k) ==
           if k == x then Successors(g, k) + [Classify(line).target] else Successors(g, k)
  {
    KindsSnoc(lines, line);
    var ks := Kinds(lines) + [Classify(line)];
    assert ks[..|ks| - 1] == Kinds(lines);
  }

  lemma {:induction false} BuildSuccessors(kinds: seq<LineKind>, k: Compound)
    ensures Successors(Build(kinds), k) == TargetsOf(EdgesOf(kinds), k)
    decreases |kinds|
  {
    if kinds != [] {
      var front := kinds[..|kinds| - 1];
      BuildSuccessors(front, k);
      var es := EdgesOf(front);
      match kinds[|kinds| - 1]
      case Edge(x, y) =>
        assert (es + [(x, y)])[..|es|] == es;
      case _ =>
    }
  }

  /** Successor lists keep file order and duplicates: the list of `k` is
      the sequence of targets of the accepted edges from `k`. */
  lemma ParseSuccessors(lines: seq<string>, k: Compound)
    ensures Successors(Parse(lines), k) == TargetsOf(Edges(lines), k)
  {
    BuildSuccessors(Kinds(lines), k);
  }

  /** One accepted edge `x -> y` after the kinds `front`. */
  lemma BuildKeysEdge(front: seq<LineKind>, x: Compound, y: Compound)
    requires Build(front).keys == FirstOccurrences(SourcesOf(EdgesOf(front)))
    ensures Build(front + [Edge(x, y)]).keys == FirstOccurrences(SourcesOf(EdgesOf(front + [Edge(x, y)])))
  {
    var kinds := front + [Edge(x, y)];
    assert kinds[..|kinds| - 1] == front;
    var es := EdgesOf(front);
    assert EdgesOf(kinds) == es + [(x, y)];
    assert SourcesOf(es + [(x, y)]) == SourcesOf(es) + [x] by {
      assert (es + [(x, y)])[..|es|] == es;
    }
    assert (SourcesOf(es) + [x])[..|SourcesOf(es)|] == SourcesOf(es);
  }

  lemma {:induction false} BuildKeys(kinds: seq<LineKind>)
    ensures Build(kinds).keys == FirstOccurrences(SourcesOf(EdgesOf(kinds)))
    decreases |kinds|
  {
    if kinds != [] {
      var front := kinds[..|kinds| - 1];
      BuildKeys(front);
      assert kinds == front + [kinds[|kinds| - 1]];
      match kinds[|kinds| - 1]
      case Edge(x, y) => BuildKeysEdge(front, x, y);
      case _ =>
    }
  }

  /** The keys are the sources of the accepted edges, in order of first appearance. */
  lemma ParseKeys(lines: seq<string>)
    ensures Parse(lines).keys == FirstOccurrences(SourcesOf(Edges(lines)))
  {
    BuildKeys(Kinds(lines));
  }

  /** Overwriting the list of one key changes the sum by the difference in
      lengths when the key is listed, and not at all otherwise. */
  lemma {:induction false} SumLengthsUpdate(ks: seq<Compound>, m: map<Compound, seq<Compound>>, x: Compound, v: seq<Compound>)
    requires forall i, j :: 0 <= i < j < |ks| ==> ks[i] != ks[j]
    ensures SumLengths(ks, m[x := v]) as int ==
      SumLengths(ks, m) + (if x in ks then |v| - (if x in m then |m[x]| else 0) else 0)
    decreases |ks|
  {
    if ks != [] {
      var front := ks[..|ks| - 1];
      SumLengthsUpdate(front, m, x, v);
      assert x in ks <==> x in front || ks[|ks| - 1] == x;
      assert ks[|ks| - 1] == x ==> x !in front;
    }
  }

  lemma {:induction false} BuildEdgeCount(kinds: seq<LineKind>)
    ensures TotalSuccessors(Build(kinds)) == |EdgesOf(kinds)|
    decreases |kinds|
  {
    if kinds != [] {
      var front := kinds[..|kinds| - 1];
      BuildEdgeCount(front);
      var g := Build(front);
      match kinds[|kinds| - 1]
      case Edge(x, y) =>
        if x in g.succ {
          SumLengthsUpdate(g.keys, g.succ, x, g.succ[x] + [y]);
        } else {
          var ks := g.keys + [x];
          assert ks[..|ks| - 1] == g.keys;
          SumLengthsUpdate(g.keys, g.succ, x, [y]);
        }
      case _ =>
    }
  }

  /** The total successor count equals the number of accepted lines. */
  lemma ParseEdgeCount(lines: seq<string>)
    ensures TotalSuccessors(Parse(lines)) == |Edges(lines)|
  {
    BuildEdgeCount(Kinds(lines));
  }

  lemma {:induction false} BuildWellFormed(kinds: seq<LineKind>)
    requires forall i :: 0 <= i < |kinds| && kinds[i].Edge? ==>
      WellFormedSource(kinds[i].source) && WellFormedTarget(kinds[i].target)
    ensures forall k :: k in Build(kinds).succ ==> WellFormedSource(k)
    ensures forall k, y :: k in Build(kinds).succ && y in Build(kinds).succ[k] ==> WellFormedTarget(y)
    decreases |kinds|
  {
    if kinds != [] {
      BuildWellFormed(kinds[..|kinds| - 1]);
    }
  }

  /** Every retained key and every successor is well formed. */
  lemma ParseWellFormed(lines: seq<string>)
    ensures forall k :: k in Parse(lines).succ ==> WellFormedSource(k)
    ensures forall k, y :: k in Parse(lines).succ && y in Parse(lines).succ[k] ==> WellFormedTarget(y)
  {
    var kinds := Kinds(lines);
    forall i | 0 <= i < |kinds| && kinds[i].Edge?
      ensures WellFormedSource(kinds[i].source) && WellFormedTarget(kinds[i].target)
    {
      EdgeEndpoints(lines[i]);
    }
    BuildWellFormed(kinds);
  }

  /** Reading one more line of a file, in terms of its prefixes. */
  lemma PrefixStep(lines: seq<string>, i: nat)
    requires i < |lines|
    ensures Parse(lines[..i + 1]) == Apply(Parse(lines[..i]), Classify(lines[i]))
    ensures BadLines(lines[..i + 1]) ==
      if Classify(lines[i]) == Bad then BadLines(lines[..i]) + [lines[i]] else BadLines(lines[..i])
  {
    KindsPrefix(lines, i);
    var ks := Kinds(lines[..i + 1]);
    assert ks[..|ks| - 1] == Kinds(lines[..i]);
    assert lines[..i + 1][..i] == lines[..i];
  }

  /** The Python dict that `readGraph` fills in place. */
  class AdjacencyDict {
    var keys: seq<Compound>
    var succ: map<Compound, seq<Compound>>

    /** The dict's contents, in insertion order. */
    function Value(): Graph
      reads this
    {
      Graph(keys, succ)
    }

    /** `{}` */
    constructor ()
      ensures Value() == EmptyGraph
    {
      keys := [];
      succ := map[];
    }

    /** `self.setdefault(x, []).append(y)` */
    method SetDefaultAppend(x: Compound, y: Compound)
      modifies this
      ensures Value() == AddEdge(old(Value()), x, y)
    {
      var list := if x in succ then succ[x] else [];
      if x !in succ {
        keys := keys + [x];
      }
      succ := succ[x := list + [y]];
      assert list == Successors(old(Value()), x);
    }
  }

  /** The body of the loop of `readGraph` for one line: strip, split on
      tabs, then skip it, report it as bad, or add its edge to `dict`. */
  method ReadLine(dict: AdjacencyDict, line: string) returns (isBad: bool)
    modifies dict
    ensures dict.Value() == Apply(old(dict.Value()), Classify(line))
    ensures isBad <==> Classify(line) == Bad
  {
    var vals := Split(Strip(line), '\t');
    isBad := false;
    if |vals[0]| == 0 || vals[0][0] == '#' {
      // comment or blank line
    } else if |vals| != 2 {
      isBad := true;
    } else {
      dict.SetDefaultAppend(vals[0], vals[1]);
    }
  }

  /** `readGraph(graphFile)`, with the file given as its lines and the
      "Bad line" messages returned instead of printed. */
  method ReadGraph(lines: seq<string>) returns (graph: Graph, bad: seq<string>)
    ensures graph == Parse(lines)
    ensures bad == BadLines(lines)
  {
    var dict := new AdjacencyDict();
    bad := [];
    for i := 0 to |lines|
      invariant dict.Value() == Parse(lines[..i])
      invariant bad == BadLines(lines[..i])
    {
      PrefixStep(lines, i);
      var isBad := ReadLine(dict, lines[i]);
      if isBad {
        bad := bad + [lines[i]];
      }
    }
    assert lines[..|lines|] == lines;
    graph := dict.Value();
  }
}
