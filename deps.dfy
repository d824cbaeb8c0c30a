/** deps.py: identifier escaping, Graphviz node lines (Vertex) and the depth-first
    printer of a dependency graph of vertices. */
module Deps {
  import opened Wrappers
  import opened Seqs

  // ---------------------------------------------------------------------------
  // escape_name
  // ---------------------------------------------------------------------------

  /** The characters escape_name turns into '_', in the order it replaces them. */
  const Specials: seq<char> :=
    [' ', '.', '/', '#', '?', ',', '!', '@', '$', '%', '^', '*', '(', ')', '+', '=',
     '[', ']', '{', '}', ':', ';', '"', '-', '\\', '\'']

  /** Membership in Specials, spelled out. */
  predicate IsSpecial(c: char) {
    c == ' ' || c == '.' || c == '/' || c == '#' || c == '?' || c == ',' || c == '!' || c == '@' ||
    c == '$' || c == '%' || c == '^' || c == '*' || c == '(' || c == ')' || c == '+' || c == '=' ||
    c == '[' || c == ']' || c == '{' || c == '}' || c == ':' || c == ';' || c == '"' || c == '-' ||
    c == '\\' || c == '\''
  }

  lemma SpecialsMembership(c: char)
    ensures c in Specials <==> IsSpecial(c)
  {
  }

  /** str.replace(c, r) for a one-character pattern c. */
  function ReplaceChar(s: string, c: char, r: string): string {
    if s == [] then [] else (if s[0] == c then r else [s[0]]) + ReplaceChar(s[1..], c, r)
  }

  /** The loop `for c in cs: name = name.replace(c, '_')`. */
  function ReplaceEach(s: string, cs: seq<char>): string
    decreases |cs|
  {
    if cs == [] then s else ReplaceEach(ReplaceChar(s, cs[0], "_"), cs[1..])
  }

  /** escape_name as the source writes it: '&' becomes "and", then each special
      character in turn becomes '_'. */
  function EscapeNameAsWritten(name: string): string {
    ReplaceEach(ReplaceChar(name, '&', "and"), Specials)
  }

  /** The image of one character under escape_name. */
  function EscapeChar(c: char): string {
    if c == '&' then "and" else if IsSpecial(c) then "_" else [c]
  }

  /** escape_name, character by character; EscapeNameAgrees shows it is the sequence of
      replacements the source performs. */
  function EscapeName(s: string): string {
    if s == [] then [] else EscapeChar(s[0]) + EscapeName(s[1..])
  }

  /** Every character of cs becomes '_', the others stay. */
  function Underscored(s: string, cs: seq<char>): string {
    if s == [] then [] else [if s[0] in cs then '_' else s[0]] + Underscored(s[1..], cs)
  }

  lemma {:induction false} UnderscoredAppend(a: string, b: string, cs: seq<char>)
    ensures Underscored(a + b, cs) == Underscored(a, cs) + Underscored(b, cs)
  {
    if a == [] {
      assert a + b == b;
    } else {
      assert (a + b)[1..] == a[1..] + b;
      UnderscoredAppend(a[1..], b, cs);
    }
  }

  lemma {:induction false} ReplaceThenUnderscore(s: string, c: char, cs: seq<char>)
    requires '_' !in cs
    ensures Underscored(ReplaceChar(s, c, "_"), cs) == Underscored(s, [c] + cs)
  {
    if s != [] {
      var head := if s[0] == c then "_" else [s[0]];
      UnderscoredAppend(head, ReplaceChar(s[1..], c, "_"), cs);
      ReplaceThenUnderscore(s[1..], c, cs);
    }
  }

  lemma {:induction false} ReplaceEachIsUnderscored(s: string, cs: seq<char>)
    requires '_' !in cs
    ensures ReplaceEach(s, cs) == Underscored(s, cs)
    decreases |cs|
  {
    if cs == [] {
      UnderscoredNone(s);
    } else {
      var t := ReplaceChar(s, cs[0], "_");
      ReplaceEachIsUnderscored(t, cs[1..]);
      ReplaceThenUnderscore(s, cs[0], cs[1..]);
      assert [cs[0]] + cs[1..] == cs;
    }
  }

  lemma {:induction false} UnderscoredNone(s: string)
    ensures Underscored(s, []) == s
  {
    if s != [] {
      UnderscoredNone(s[1..]);
    }
  }

  lemma UnderscoredOne(c: char, cs: seq<char>)
    ensures Underscored([c], cs) == [if c in cs then '_' else c]
  {
    assert [c][1..] == [];
  }

  lemma AndUntouched()
    ensures Underscored("and", Specials) == "and"
  {
    SpecialsMembership('a');
    SpecialsMembership('n');
    SpecialsMembership('d');
    assert "and" == ['a'] + "nd" && "nd" == ['n'] + "d";
    UnderscoredAppend(['a'], "nd", Specials);
    UnderscoredAppend(['n'], "d", Specials);
    UnderscoredOne('a', Specials);
    UnderscoredOne('n', Specials);
    UnderscoredOne('d', Specials);
  }

  lemma {:induction false} ExpandThenUnderscore(s: string)
    ensures Underscored(ReplaceChar(s, '&', "and"), Specials) == EscapeName(s)
  {
    if s != [] {
      var head := if s[0] == '&' then "and" else [s[0]];
      assert ReplaceChar(s, '&', "and") == head + ReplaceChar(s[1..], '&', "and");
      UnderscoredAppend(head, ReplaceChar(s[1..], '&', "and"), Specials);
      ExpandThenUnderscore(s[1..]);
      if s[0] == '&' {
        AndUntouched();
      } else {
        UnderscoredOne(s[0], Specials);
        SpecialsMembership(s[0]);
      }
      assert Underscored(head, Specials) == EscapeChar(s[0]);
    }
  }

  /** The sequential replacements of the source agree with the per-character definition,
      because neither "and" nor '_' contains a character that a later step replaces. */
  lemma EscapeNameAgrees(s: string)
    ensures EscapeNameAsWritten(s) == EscapeName(s)
  {
    ReplaceEachIsUnderscored(ReplaceChar(s, '&', "and"), Specials);
    ExpandThenUnderscore(s);
  }

  lemma {:induction false} EscapeNameAppend(a: string, b: string)
    ensures EscapeName(a + b) == EscapeName(a) + EscapeName(b)
  {
    if a == [] {
      assert a + b == b;
    } else {
      assert (a + b)[1..] == a[1..] + b;
      EscapeNameAppend(a[1..], b);
    }
  }

  /** A string escape_name leaves alone: no '&' and no special character. */
  predicate Clean(s: string) {
    forall i :: 0 <= i < |s| ==> s[i] != '&' && !IsSpecial(s[i])
  }

  lemma EscapeCharClean(c: char)
    ensures Clean(EscapeChar(c))
  {
  }

  lemma CleanAppend(a: string, b: string)
    requires Clean(a) && Clean(b)
    ensures Clean(a + b)
  {
    forall i | 0 <= i < |a + b|
      ensures (a + b)[i] != '&' && !IsSpecial((a + b)[i])
    {
      if i < |a| {
        assert (a + b)[i] == a[i];
      } else {
        assert (a + b)[i] == b[i - |a|];
      }
    }
  }

  /** escape_name output holds no '&' and none of the special characters. */
  lemma {:induction false} EscapeNameClean(s: string)
    ensures Clean(EscapeName(s))
  {
    if s != [] {
      EscapeNameClean(s[1..]);
      EscapeCharClean(s[0]);
      CleanAppend(EscapeChar(s[0]), EscapeName(s[1..]));
    }
  }

  /** A clean string is its own escape. */
  lemma {:induction false} EscapeNameOfClean(s: string)
    requires Clean(s)
    ensures EscapeName(s) == s
  {
    if s != [] {
      EscapeNameOfClean(s[1..]);
    }
  }

  /** escape_name is idempotent. */
  lemma EscapeNameIdempotent(s: string)
    ensures EscapeName(EscapeName(s)) == EscapeName(s)
  {
    EscapeNameClean(s);
    EscapeNameOfClean(EscapeName(s));
  }

  /** Every '&' grows by two characters; every other character keeps its length. */
  lemma {:induction false} EscapeNameLength(s: string)
    ensures |EscapeName(s)| == |s| + 2 * Count(s, '&')
  {
    if s != [] {
      EscapeNameLength(s[1..]);
      assert s == [s[0]] + s[1..];
      CountAppend([s[0]], s[1..], '&');
      assert [s[0]][..0] == [];
    }
  }

  /** escape_name works piecewise and keeps other characters: so characters outside the
      substitution set survive, in their order. */
  lemma EscapeNameKeepsOthers(a: string, b: string, c: char)
    requires c != '&' && !IsSpecial(c)
    ensures EscapeName(a + b) == EscapeName(a) + EscapeName(b)
    ensures EscapeName([c]) == [c]
  {
    EscapeNameAppend(a, b);
    assert [c][1..] == [];
  }

  // ---------------------------------------------------------------------------
  // Vertex
  // ---------------------------------------------------------------------------

  /** An attribute dict in insertion order. */
  type Attrs = seq<(string, string)>

  /** The keys of an attribute dict, in order. */
  function Keys(attrs: Attrs): seq<string> {
    if attrs == [] then [] else [attrs[0].0] + Keys(attrs[1..])
  }

  /** `attrs.get(k)`. */
  function Get(attrs: Attrs, k: string): Option<string> {
    if attrs == [] then None else if attrs[0].0 == k then Some(attrs[0].1) else Get(attrs[1..], k)
  }

  /** `attrs[k] = v`: overwrite in place when the key is present, else append. */
  function SetAttr(attrs: Attrs, k: string, v: string): (r: Attrs)
    ensures Get(r, k) == Some(v)
    ensures forall j :: j != k ==> Get(r, j) == Get(attrs, j)
    ensures |r| == |attrs| + (if k in Keys(attrs) then 0 else 1)
  {
    if attrs == [] then [(k, v)]
    else if attrs[0].0 == k then [(k, v)] + attrs[1..]
    else [attrs[0]] + SetAttr(attrs[1..], k, v)
  }

  /** Python truthiness of an optional string argument. */
  predicate Given(s: Option<string>) {
    s.Some? && s.value != ""
  }

  /** `label.replace('"', '\\"')`. */
  function QuoteLabel(lbl: string): string {
    ReplaceChar(lbl, '"', "\\\"")
  }

  /** The vertex's node identifier: escape_name(name, or the quoted label). */
  function VertexName(lbl: string, name: Option<string>): string {
    EscapeName(if name.Some? then name.value else QuoteLabel(lbl))
  }

  /** The attribute dict Vertex.__init__ builds from its keyword arguments: the caller's
      own attributes, then label, shape, style and fillcolor. */
  function VertexAttrs(lbl: string, fillColor: Option<string>, shape: Option<string>,
                       name: Option<string>, dotAttrs: Attrs): Attrs
  {
    AttrsFor(QuoteLabel(lbl), VertexName(lbl, name), fillColor, shape, dotAttrs)
  }

  /** The same dict, given the quoted label l and the node identifier n: the caller's
      attributes with Vertex.__init__'s assignments applied one after the other. */
  function AttrsFor(l: string, n: string, fillColor: Option<string>, shape: Option<string>,
                    dotAttrs: Attrs): Attrs
  {
    ApplySets(dotAttrs, Updates(l, n, fillColor, shape))
  }

  /** The assignments Vertex.__init__ makes, in order: label when the identifier differs
      from the quoted label, shape when one is given, style and fillcolor when a fill
      colour is given. */
  function Updates(l: string, n: string, fillColor: Option<string>, shape: Option<string>): Attrs {
    LabelUpdate(l, n) + ShapeUpdate(shape) + FillUpdate(fillColor)
  }

  function LabelUpdate(l: string, n: string): Attrs {
    if n != l then [("label", l)] else []
  }

  function ShapeUpdate(shape: Option<string>): Attrs {
    if Given(shape) then [("shape", shape.value)] else []
  }

  function FillUpdate(fillColor: Option<string>): Attrs {
    if Given(fillColor) then [("style", "filled"), ("fillcolor", fillColor.value)] else []
  }

  /** `attrs[k] = v` for each (k, v) of the updates, in order. */
  function ApplySets(attrs: Attrs, updates: Attrs): Attrs
    decreases updates
  {
    if updates == [] then attrs
    else ApplySets(SetAttr(attrs, updates[0].0, updates[0].1), updates[1..])
  }

  lemma {:induction false} ApplySetsAppend(attrs: Attrs, u: Attrs, w: Attrs)
    ensures ApplySets(attrs, u + w) == ApplySets(ApplySets(attrs, u), w)
    decreases u
  {
    if u == [] {
      assert u + w == w;
    } else {
      assert (u + w)[0] == u[0] && (u + w)[1..] == u[1..] + w;
      ApplySetsAppend(SetAttr(attrs, u[0].0, u[0].1), u[1..], w);
    }
  }

  /** Keys no update names keep their value. */
  lemma {:induction false} ApplySetsOther(attrs: Attrs, u: Attrs, k: string)
    requires k !in Keys(u)
    ensures Get(ApplySets(attrs, u), k) == Get(attrs, k)
    decreases u
  {
    if u != [] {
      ApplySetsOther(SetAttr(attrs, u[0].0, u[0].1), u[1..], k);
    }
  }

  lemma ApplySetsOne(attrs: Attrs, k: string, v: string)
    ensures ApplySets(attrs, [(k, v)]) == SetAttr(attrs, k, v)
  {
    assert [(k, v)][1..] == [];
  }

  lemma UpdateKeys(fillColor: Option<string>, shape: Option<string>)
    ensures Keys(ShapeUpdate(shape)) == if Given(shape) then ["shape"] else []
    ensures Keys(FillUpdate(fillColor)) == if Given(fillColor) then ["style", "fillcolor"] else []
  {
    if Given(fillColor) {
      var f := FillUpdate(fillColor);
      assert f[1..][1..] == [];
    }
    if Given(shape) {
      assert ShapeUpdate(shape)[1..] == [];
    }
  }

  lemma ApplySetsSplit(l: string, n: string, fillColor: Option<string>, shape: Option<string>,
                       dotAttrs: Attrs)
    ensures AttrsFor(l, n, fillColor, shape, dotAttrs) ==
            ApplySets(ApplySets(ApplySets(dotAttrs, LabelUpdate(l, n)), ShapeUpdate(shape)), FillUpdate(fillColor))
  {
    ApplySetsAppend(dotAttrs, LabelUpdate(l, n) + ShapeUpdate(shape), FillUpdate(fillColor));
    ApplySetsAppend(dotAttrs, LabelUpdate(l, n), ShapeUpdate(shape));
  }

  function AttrItem(kv: (string, string)): string {
    kv.0 + "=\"" + kv.1 + "\""
  }

  function AttrItems(attrs: Attrs): seq<string> {
    if attrs == [] then [] else [AttrItem(attrs[0])] + AttrItems(attrs[1..])
  }

  /** Vertex._attrs: empty, or the bracketed, comma-separated attribute list. */
  function AttrText(attrs: Attrs): string {
    if attrs == [] then "" else "[" + Join(", ", AttrItems(attrs)) + "]"
  }

  /** str(Vertex(label, fill_color=..., shape=..., name=..., **dot_attrs)). */
  function VertexText(lbl: string, fillColor: Option<string>, shape: Option<string>,
                      name: Option<string>, dotAttrs: Attrs): string
  {
    VertexName(lbl, name) + AttrText(VertexAttrs(lbl, fillColor, shape, name, dotAttrs)) + ";"
  }

  /** Every double quote of the label comes out preceded by a backslash, and the
      label grows by one character per quote. */
  lemma {:induction false} QuoteLabelEscapes(lbl: string)
    ensures |QuoteLabel(lbl)| == |lbl| + Count(lbl, '"')
    ensures forall i :: 0 <= i < |QuoteLabel(lbl)| && QuoteLabel(lbl)[i] == '"' ==>
              i > 0 && QuoteLabel(lbl)[i - 1] == '\\'
  {
    if lbl != [] {
      QuoteLabelEscapes(lbl[1..]);
      assert lbl == [lbl[0]] + lbl[1..];
      CountAppend([lbl[0]], lbl[1..], '"');
      assert [lbl[0]][..0] == [];
      var h := if lbl[0] == '"' then "\\\"" else [lbl[0]];
      var t := QuoteLabel(lbl[1..]);
      assert QuoteLabel(lbl) == h + t;
      forall i | 0 <= i < |h + t| && (h + t)[i] == '"' ensures i > 0 && (h + t)[i - 1] == '\\' {
        if i >= |h| {
          assert t[i - |h|] == '"';
          if i - |h| == 0 {
            assert false;
          }
        }
      }
    }
  }

  lemma LiteralKeysDiffer()
    ensures "label" != "shape" && "label" != "style" && "label" != "fillcolor"
    ensures "shape" != "style" && "shape" != "fillcolor" && "style" != "fillcolor"
  {
    assert "label"[0] != "shape"[0] && "label"[0] != "style"[0] && "shape"[1] != "style"[1];
    assert |"fillcolor"| != 5;
  }

  lemma LabelAttrFor(l: string, n: string, fillColor: Option<string>, shape: Option<string>,
                     dotAttrs: Attrs)
    requires Get(dotAttrs, "label") == None
    ensures Get(AttrsFor(l, n, fillColor, shape, dotAttrs), "label") == if n != l then Some(l) else None
  {
    LiteralKeysDiffer();
    UpdateKeys(fillColor, shape);
    ApplySetsSplit(l, n, fillColor, shape, dotAttrs);
    var a1 := ApplySets(dotAttrs, LabelUpdate(l, n));
    var a2 := ApplySets(a1, ShapeUpdate(shape));
    ApplySetsOther(a2, FillUpdate(fillColor), "label");
    ApplySetsOther(a1, ShapeUpdate(shape), "label");
    if n != l {
      ApplySetsOne(dotAttrs, "label", l);
    }
  }

  /** A `label` attribute, holding the quoted label, is present iff the node identifier
      differs from the quoted label (when the caller passed no `label` keyword itself). */
  lemma LabelAttrIff(lbl: string, fillColor: Option<string>, shape: Option<string>,
                     name: Option<string>, dotAttrs: Attrs)
    requires Get(dotAttrs, "label") == None
    ensures Get(VertexAttrs(lbl, fillColor, shape, name, dotAttrs), "label") ==
            if VertexName(lbl, name) != QuoteLabel(lbl) then Some(QuoteLabel(lbl)) else None
  {
    LabelAttrFor(QuoteLabel(lbl), VertexName(lbl, name), fillColor, shape, dotAttrs);
  }

  lemma ShapeAndFillFor(l: string, n: string, fillColor: Option<string>, shape: Option<string>,
                        dotAttrs: Attrs)
    ensures var a := AttrsFor(l, n, fillColor, shape, dotAttrs);
            (Given(fillColor) ==> Get(a, "fillcolor") == fillColor && Get(a, "style") == Some("filled")) &&
            (Given(shape) ==> Get(a, "shape") == shape)
  {
    LiteralKeysDiffer();
    UpdateKeys(fillColor, shape);
    ApplySetsSplit(l, n, fillColor, shape, dotAttrs);
    var a1 := ApplySets(dotAttrs, LabelUpdate(l, n));
    var a2 := ApplySets(a1, ShapeUpdate(shape));
    if Given(fillColor) {
      assert FillUpdate(fillColor) == [("style", "filled")] + [("fillcolor", fillColor.value)];
      ApplySetsAppend(a2, [("style", "filled")], [("fillcolor", fillColor.value)]);
      ApplySetsOne(a2, "style", "filled");
      ApplySetsOne(SetAttr(a2, "style", "filled"), "fillcolor", fillColor.value);
    }
    if Given(shape) {
      ApplySetsOne(a1, "shape", shape.value);
      ApplySetsOther(a2, FillUpdate(fillColor), "shape");
    }
  }

  /** A fill colour adds style="filled" and the fillcolor itself; a shape adds shape. */
  lemma ShapeAndFillAttrs(lbl: string, fillColor: Option<string>, shape: Option<string>,
                          name: Option<string>, dotAttrs: Attrs)
    ensures var a := VertexAttrs(lbl, fillColor, shape, name, dotAttrs);
            (Given(fillColor) ==> Get(a, "fillcolor") == fillColor && Get(a, "style") == Some("filled")) &&
            (Given(shape) ==> Get(a, "shape") == shape)
  {
    ShapeAndFillFor(QuoteLabel(lbl), VertexName(lbl, name), fillColor, shape, dotAttrs);
  }

  lemma {:induction false} KeysGet(attrs: Attrs, k: string)
    ensures k in Keys(attrs) <==> Get(attrs, k).Some?
  {
    if attrs != [] {
      KeysGet(attrs[1..], k);
    }
  }

  lemma TextBareFor(n: string, a: Attrs)
    ensures n + AttrText(a) + ";" == n + ";" <==> a == []
  {
    if a != [] {
      var t := n + AttrText(a) + ";";
      assert t == n + ("[" + Join(", ", AttrItems(a)) + "]") + ";";
      assert t[|n|] == '[';
      assert (n + ";")[|n|] == ';';
    }
  }

  /** A vertex renders as exactly its identifier and ';' iff it has no attributes. */
  lemma VertexTextBare(lbl: string, fillColor: Option<string>, shape: Option<string>,
                       name: Option<string>, dotAttrs: Attrs)
    ensures VertexText(lbl, fillColor, shape, name, dotAttrs) == VertexName(lbl, name) + ";"
            <==> VertexAttrs(lbl, fillColor, shape, name, dotAttrs) == []
  {
    TextBareFor(VertexName(lbl, name), VertexAttrs(lbl, fillColor, shape, name, dotAttrs));
  }

  /** A node of deps.py's dependency graph. Its identifier and attribute text are
      fixed by the constructor; its dependencies can grow afterwards. */
  class Vertex {
    const name: string
    const attrText: string
    var dependsOn: set<Vertex>

    constructor (lbl: string, dependsOn: set<Vertex>, fillColor: Option<string>,
                 shape: Option<string>, name: Option<string>, dotAttrs: Attrs)
      ensures this.name == VertexName(lbl, name)
      ensures attrText == AttrText(VertexAttrs(lbl, fillColor, shape, name, dotAttrs))
      ensures this.dependsOn == dependsOn
    {
      this.name := VertexName(lbl, name);
      this.attrText := AttrText(VertexAttrs(lbl, fillColor, shape, name, dotAttrs));
      this.dependsOn := dependsOn;
    }

    /** Vertex.__str__. */
    function Str(): string {
      name + attrText + ";"
    }
  }

  // ---------------------------------------------------------------------------
  // print_nodes_and_deps and digraph
  // ---------------------------------------------------------------------------

  /** One line of printer output: a node declaration or an edge from a dependency to
      the vertex that depends on it. */
  datatype Line = NodeLine(v: Vertex) | EdgeLine(from: Vertex, to: Vertex)

  function LineText(l: Line): string {
    match l
    case NodeLine(v) => "    " + v.Str()
    case EdgeLine(a, b) => "    " + a.name + " -> " + b.name
  }

  function Texts(trace: seq<Line>): (r: seq<string>)
    ensures |r| == |trace| && forall i :: 0 <= i < |trace| ==> r[i] == LineText(trace[i])
  {
    if trace == [] then [] else Texts(trace[..|trace| - 1]) + [LineText(trace[|trace| - 1])]
  }

  /** The vertices whose node line occurs in the trace. */
  function Nodes(trace: seq<Line>): set<Vertex> {
    set i | 0 <= i < |trace| && trace[i].NodeLine? :: trace[i].v
  }

  /** Every vertex has at most one node line. */
  predicate NodesOnce(trace: seq<Line>) {
    forall i, j :: 0 <= i < j < |trace| && trace[i].NodeLine? && trace[j].NodeLine? ==>
      trace[i].v != trace[j].v
  }

  /** Both ends of every edge line had their node line before it (or were already
      visited when the trace started). */
  predicate EdgesAfterNodes(visited: set<Vertex>, trace: seq<Line>) {
    forall k :: 0 <= k < |trace| && trace[k].EdgeLine? ==>
      trace[k].from in visited + Nodes(trace[..k]) && trace[k].to in visited + Nodes(trace[..k])
  }

  /** Every dependency of a set of vertices is inside the set. */
  ghost predicate Closed(universe: set<Vertex>)
    reads universe
  {
    forall v :: v in universe ==> v.dependsOn <= universe
  }

  lemma NodesAppend(a: seq<Line>, b: seq<Line>)
    ensures Nodes(a + b) == Nodes(a) + Nodes(b)
  {
    forall v | v in Nodes(a + b) ensures v in Nodes(a) + Nodes(b) {
      var i :| 0 <= i < |a + b| && (a + b)[i].NodeLine? && (a + b)[i].v == v;
      if i >= |a| {
        assert b[i - |a|] == (a + b)[i];
      }
    }
    forall v | v in Nodes(b) ensures v in Nodes(a + b) {
      var i :| 0 <= i < |b| && b[i].NodeLine? && b[i].v == v;
      assert (a + b)[i + |a|] == b[i];
    }
    forall v | v in Nodes(a) ensures v in Nodes(a + b) {
      var i :| 0 <= i < |a| && a[i].NodeLine? && a[i].v == v;
      assert (a + b)[i] == a[i];
    }
  }

  /** Joining two traces keeps node lines unique when the second one only visits
      vertices the first did not, and keeps every edge after its ends. */
  lemma TraceAppend(visited: set<Vertex>, a: seq<Line>, b: seq<Line>)
    requires NodesOnce(a) && NodesOnce(b) && Nodes(a) !! Nodes(b)
    requires EdgesAfterNodes(visited, a) && EdgesAfterNodes(visited + Nodes(a), b)
    ensures NodesOnce(a + b) && EdgesAfterNodes(visited, a + b)
    ensures Nodes(a + b) == Nodes(a) + Nodes(b)
  {
    NodesAppend(a, b);
    var ab := a + b;
    forall i, j | 0 <= i < j < |ab| && ab[i].NodeLine? && ab[j].NodeLine?
      ensures ab[i].v != ab[j].v
    {
      if j < |a| {
        assert ab[i] == a[i] && ab[j] == a[j];
      } else if i >= |a| {
        assert ab[i] == b[i - |a|] && ab[j] == b[j - |a|];
      } else {
        assert ab[i] == a[i] && ab[j] == b[j - |a|];
        assert ab[i].v in Nodes(a) && ab[j].v in Nodes(b);
      }
    }
    forall k | 0 <= k < |ab| && ab[k].EdgeLine?
      ensures ab[k].from in visited + Nodes(ab[..k]) && ab[k].to in visited + Nodes(ab[..k])
    {
      if k < |a| {
        assert ab[k] == a[k] && ab[..k] == a[..k];
      } else {
        assert ab[k] == b[k - |a|];
        assert ab[..k] == a + b[..k - |a|];
        NodesAppend(a, b[..k - |a|]);
      }
    }
  }

  /** What print_nodes_and_deps leaves behind when called with the set `visited` and
      returning (trace, visitedOut): the vertices it printed are exactly the new ones,
      each printed once and before any edge that mentions it, and every dependency of
      a newly printed vertex is printed too, with its edge line. */
  ghost predicate Printed(visited: set<Vertex>, trace: seq<Line>, visitedOut: set<Vertex>,
                          universe: set<Vertex>)
    reads universe
  {
    && visitedOut == visited + Nodes(trace)
    && Nodes(trace) !! visited && Nodes(trace) <= universe
    && NodesOnce(trace) && EdgesAfterNodes(visited, trace)
    && forall v, d :: v in universe && v in visitedOut - visited && d in v.dependsOn ==>
         d in visitedOut && EdgeLine(d, v) in trace
  }

  /** The state inside the loop of print_nodes_and_deps: toVisit is printed, the
      dependencies already handled have their edge into toVisit, and `Printed` holds
      for every other vertex. */
  ghost predicate Visiting(toVisit: Vertex, rest: set<Vertex>, visited: set<Vertex>,
                           trace: seq<Line>, visitedOut: set<Vertex>, universe: set<Vertex>)
    reads universe
  {
    && toVisit in universe && toVisit in visitedOut && toVisit !in visited
    && rest <= toVisit.dependsOn
    && visitedOut == visited + Nodes(trace)
    && Nodes(trace) !! visited && Nodes(trace) <= universe
    && NodesOnce(trace) && EdgesAfterNodes(visited, trace)
    && (forall d :: d in toVisit.dependsOn - rest ==> d in visitedOut && EdgeLine(d, toVisit) in trace)
    && forall v, d :: v in universe && v in visitedOut - visited && v != toVisit && d in v.dependsOn ==>
         d in visitedOut && EdgeLine(d, v) in trace
  }

  lemma VisitingStart(toVisit: Vertex, visited: set<Vertex>, universe: set<Vertex>)
    requires toVisit in universe && toVisit !in visited && Closed(universe)
    ensures Visiting(toVisit, toVisit.dependsOn, visited, [NodeLine(toVisit)], visited + {toVisit}, universe)
  {
    assert Nodes([NodeLine(toVisit)]) == {toVisit} by {
      assert [NodeLine(toVisit)][0].v == toVisit;
    }
  }

  lemma VisitingEnd(toVisit: Vertex, visited: set<Vertex>, trace: seq<Line>, visitedOut: set<Vertex>,
                    universe: set<Vertex>)
    requires Visiting(toVisit, {}, visited, trace, visitedOut, universe)
    ensures Printed(visited, trace, visitedOut, universe)
  {
  }

  /** The trace facts of one turn: appending the recursive call's lines and the edge
      keeps node lines unique and edges after their ends. */
  lemma TraceStep(visited: set<Vertex>, trace: seq<Line>, mid: set<Vertex>, sub: seq<Line>,
                  after: set<Vertex>, edge: Line)
    requires mid == visited + Nodes(trace) && Nodes(trace) !! visited
    requires NodesOnce(trace) && EdgesAfterNodes(visited, trace)
    requires after == mid + Nodes(sub) && Nodes(sub) !! mid
    requires NodesOnce(sub) && EdgesAfterNodes(mid, sub)
    requires edge.EdgeLine? && edge.from in after && edge.to in mid
    ensures Nodes(trace + sub + [edge]) == Nodes(trace) + Nodes(sub)
    ensures NodesOnce(trace + sub + [edge]) && EdgesAfterNodes(visited, trace + sub + [edge])
  {
    TraceAppend(visited, trace, sub);
    var before := trace + sub;
    assert Nodes([edge]) == {};
    TraceAppend(visited, before, [edge]);
  }

  /** The closure facts of one turn: the vertices the recursive call added bring
      their edges with them. */
  lemma ClosureStep(visited: set<Vertex>, mid: set<Vertex>, after: set<Vertex>, top: Vertex,
                    trace: seq<Line>, sub: seq<Line>, edge: Line, universe: set<Vertex>)
    requires mid <= after
    requires forall v, d :: v in universe && v in mid - visited && v != top && d in v.dependsOn ==>
               d in mid && EdgeLine(d, v) in trace
    requires forall v, d :: v in universe && v in after - mid && d in v.dependsOn ==>
               d in after && EdgeLine(d, v) in sub
    ensures forall v, d :: v in universe && v in after - visited && v != top && d in v.dependsOn ==>
              d in after && EdgeLine(d, v) in trace + sub + [edge]
  {
    forall v, d | v in universe && v in after - visited && v != top && d in v.dependsOn
      ensures d in after && EdgeLine(d, v) in trace + sub + [edge]
    {
      if v in mid {
        assert EdgeLine(d, v) in trace;
      } else {
        assert EdgeLine(d, v) in sub;
      }
    }
  }

  /** One turn of the loop, the trace half. */
  lemma VisitingStepTrace(toVisit: Vertex, rest: set<Vertex>, node: Vertex, visited: set<Vertex>,
                          trace: seq<Line>, mid: set<Vertex>, sub: seq<Line>, after: set<Vertex>,
                          universe: set<Vertex>)
    requires Visiting(toVisit, rest, visited, trace, mid, universe) && node in rest
    requires Printed(mid, sub, after, universe) && node in after
    ensures var next := trace + sub + [EdgeLine(node, toVisit)];
      && after == visited + Nodes(next)
      && Nodes(next) !! visited && Nodes(next) <= universe
      && NodesOnce(next) && EdgesAfterNodes(visited, next)
  {
    TraceStep(visited, trace, mid, sub, after, EdgeLine(node, toVisit));
  }

  /** One turn of the loop, the edge half. */
  lemma VisitingStepEdges(toVisit: Vertex, rest: set<Vertex>, node: Vertex, visited: set<Vertex>,
                          trace: seq<Line>, mid: set<Vertex>, sub: seq<Line>, after: set<Vertex>,
                          universe: set<Vertex>)
    requires Visiting(toVisit, rest, visited, trace, mid, universe) && node in rest
    requires Printed(mid, sub, after, universe) && node in after
    ensures var next := trace + sub + [EdgeLine(node, toVisit)];
      && (forall d :: d in toVisit.dependsOn - (rest - {node}) ==> d in after && EdgeLine(d, toVisit) in next)
      && forall v, d :: v in universe && v in after - visited && v != toVisit && d in v.dependsOn ==>
           d in after && EdgeLine(d, v) in next
  {
    var edge := EdgeLine(node, toVisit);
    var next := trace + sub + [edge];
    ClosureStep(visited, mid, after, toVisit, trace, sub, edge, universe);
    assert edge in next by {
      assert next[|next| - 1] == edge;
    }
    forall d | d in toVisit.dependsOn - (rest - {node})
      ensures d in after && EdgeLine(d, toVisit) in next
    {
      if d != node {
        assert EdgeLine(d, toVisit) in trace;
      }
    }
  }

  /** One turn of the loop: recurse into `node`, then print the edge node -> toVisit. */
  lemma VisitingStep(toVisit: Vertex, rest: set<Vertex>, node: Vertex, visited: set<Vertex>,
                     trace: seq<Line>, mid: set<Vertex>, sub: seq<Line>, after: set<Vertex>,
                     universe: set<Vertex>)
    requires Visiting(toVisit, rest, visited, trace, mid, universe) && node in rest
    requires Printed(mid, sub, after, universe) && node in after
    ensures Visiting(toVisit, rest - {node}, visited, trace + sub + [EdgeLine(node, toVisit)], after, universe)
  {
    VisitingStepTrace(toVisit, rest, node, visited, trace, mid, sub, after, universe);
    VisitingStepEdges(toVisit, rest, node, visited, trace, mid, sub, after, universe);
  }

  /** v is root, or, within n steps, a dependency of a dependency ... of root, every
      vertex on the way lying in `universe`. */
  ghost predicate ReachIn(root: Vertex, v: Vertex, n: nat, universe: set<Vertex>)
    reads universe
    decreases n
  {
    root in universe && (v == root || (n > 0 && exists d :: d in root.dependsOn && ReachIn(d, v, n - 1, universe)))
  }

  ghost predicate Reachable(root: Vertex, v: Vertex, universe: set<Vertex>)
    reads universe
  {
    exists n: nat :: ReachIn(root, v, n, universe)
  }

  /** Every edge line `from -> to` is a dependency the vertex `to` really has. */
  ghost predicate EdgesSound(trace: seq<Line>, universe: set<Vertex>)
    reads universe
  {
    forall k :: 0 <= k < |trace| && trace[k].EdgeLine? ==>
      trace[k].to in universe && trace[k].from in trace[k].to.dependsOn
  }

  /** The printer invents nothing: its edges are real dependencies, and every vertex it
      printed is reachable from the vertex it started at. */
  ghost predicate Sound(root: Vertex, trace: seq<Line>, universe: set<Vertex>)
    reads universe
  {
    EdgesSound(trace, universe) && forall v :: v in Nodes(trace) ==> Reachable(root, v, universe)
  }

  lemma EdgesSoundAppend(a: seq<Line>, b: seq<Line>, universe: set<Vertex>)
    requires EdgesSound(a, universe) && EdgesSound(b, universe)
    ensures EdgesSound(a + b, universe)
  {
    forall k | 0 <= k < |a + b| && (a + b)[k].EdgeLine?
      ensures (a + b)[k].to in universe && (a + b)[k].from in (a + b)[k].to.dependsOn
    {
      if k < |a| {
        assert (a + b)[k] == a[k];
      } else {
        assert (a + b)[k] == b[k - |a|];
      }
    }
  }

  lemma SoundStart(toVisit: Vertex, universe: set<Vertex>)
    requires toVisit in universe
    ensures Sound(toVisit, [NodeLine(toVisit)], universe)
  {
    assert Nodes([NodeLine(toVisit)]) == {toVisit} by {
      assert [NodeLine(toVisit)][0].v == toVisit;
    }
    assert ReachIn(toVisit, toVisit, 0, universe);
  }

  /** A vertex reachable from a dependency of root is reachable from root. */
  lemma ReachableStep(root: Vertex, node: Vertex, v: Vertex, universe: set<Vertex>)
    requires root in universe && node in root.dependsOn && Reachable(node, v, universe)
    ensures Reachable(root, v, universe)
  {
    var n: nat :| ReachIn(node, v, n, universe);
    assert ReachIn(root, v, n + 1, universe);
  }

  /** One turn of the printer's loop keeps it sound. */
  lemma SoundStep(toVisit: Vertex, node: Vertex, trace: seq<Line>, sub: seq<Line>, universe: set<Vertex>)
    requires toVisit in universe && node in toVisit.dependsOn
    requires Sound(toVisit, trace, universe) && Sound(node, sub, universe)
    ensures Sound(toVisit, trace + sub + [EdgeLine(node, toVisit)], universe)
  {
    var edge := EdgeLine(node, toVisit);
    assert EdgesSound([edge], universe);
    EdgesSoundAppend(trace, sub, universe);
    EdgesSoundAppend(trace + sub, [edge], universe);
    NodesAppend(trace, sub);
    NodesAppend(trace + sub, [edge]);
    assert Nodes([edge]) == {};
    forall v | v in Nodes(sub) ensures Reachable(toVisit, v, universe) {
      ReachableStep(toVisit, node, v, universe);
    }
  }

  /** print_nodes_and_deps: emit a node line for toVisit unless already visited, then
      for each dependency recurse and emit the edge dependency -> toVisit. `universe`
      is any finite set of vertices closed under dependencies; it bounds the recursion. */
  method PrintNodesAndDeps(toVisit: Vertex, visited: set<Vertex>, ghost universe: set<Vertex>)
    returns (trace: seq<Line>, visitedOut: set<Vertex>)
    requires toVisit in universe && Closed(universe)
    ensures Printed(visited, trace, visitedOut, universe) && toVisit in visitedOut
    ensures Sound(toVisit, trace, universe)
    decreases universe - visited
  {
    if toVisit in visited {
      return [], visited;
    }
    trace := [NodeLine(toVisit)];
    visitedOut := visited + {toVisit};
    VisitingStart(toVisit, visited, universe);
    SoundStart(toVisit, universe);
    var rest := toVisit.dependsOn;
    while rest != {}
      invariant Visiting(toVisit, rest, visited, trace, visitedOut, universe)
      invariant Sound(toVisit, trace, universe)
      decreases rest
    {
      var node :| node in rest;
      assert node in universe;
      var sub, after := PrintNodesAndDeps(node, visitedOut, universe);
      VisitingStep(toVisit, rest, node, visited, trace, visitedOut, sub, after, universe);
      SoundStep(toVisit, node, trace, sub, universe);
      rest := rest - {node};
      trace := trace + sub + [EdgeLine(node, toVisit)];
      visitedOut := after;
    }
    VisitingEnd(toVisit, visited, trace, visitedOut, universe);
  }

  /** Every dependency of a printed vertex is printed, with its edge line. */
  ghost predicate EdgesComplete(trace: seq<Line>, universe: set<Vertex>)
    reads universe
  {
    forall v, d :: v in universe && v in Nodes(trace) && d in v.dependsOn ==>
      d in Nodes(trace) && EdgeLine(d, v) in trace
  }

  /** Appending one goal's subgraph to the digraph body keeps it complete. */
  lemma DigraphStep(trace: seq<Line>, sub: seq<Line>, after: set<Vertex>, universe: set<Vertex>)
    requires Nodes(trace) <= universe && NodesOnce(trace) && EdgesAfterNodes({}, trace)
    requires EdgesComplete(trace, universe)
    requires Printed(Nodes(trace), sub, after, universe)
    ensures after == Nodes(trace + sub) && Nodes(trace + sub) <= universe
    ensures NodesOnce(trace + sub) && EdgesAfterNodes({}, trace + sub)
    ensures EdgesComplete(trace + sub, universe)
  {
    TraceAppend({}, trace, sub);
    assert {} + Nodes(trace) == Nodes(trace);
    var next := trace + sub;
    forall v, d | v in universe && v in Nodes(next) && d in v.dependsOn
      ensures d in Nodes(next) && EdgeLine(d, v) in next
    {
      if v in Nodes(trace) {
        assert EdgeLine(d, v) in trace;
      } else {
        assert EdgeLine(d, v) in sub;
      }
    }
  }

  /** The digraph body invents nothing: its edges are real dependencies, and every
      vertex in it is reachable from one of the goals. */
  ghost predicate SoundFrom(goals: seq<Vertex>, trace: seq<Line>, universe: set<Vertex>)
    reads universe
  {
    EdgesSound(trace, universe) &&
    forall v :: v in Nodes(trace) ==> exists g :: g in goals && Reachable(g, v, universe)
  }

  /** Appending one goal's sound subgraph keeps the digraph body sound. */
  lemma SoundFromStep(goals: seq<Vertex>, i: int, trace: seq<Line>, sub: seq<Line>, universe: set<Vertex>)
    requires 0 <= i < |goals| && SoundFrom(goals, trace, universe) && Sound(goals[i], sub, universe)
    ensures SoundFrom(goals, trace + sub, universe)
  {
    EdgesSoundAppend(trace, sub, universe);
    NodesAppend(trace, sub);
    forall v | v in Nodes(sub) ensures exists g :: g in goals && Reachable(g, v, universe) {
      assert goals[i] in goals && Reachable(goals[i], v, universe);
    }
  }

  /** The digraph body so far: inside the universe, each vertex once and before its
      edges, closed under dependencies, and sound. */
  ghost predicate Body(goals: seq<Vertex>, trace: seq<Line>, universe: set<Vertex>)
    reads universe
  {
    && Nodes(trace) <= universe && NodesOnce(trace) && EdgesAfterNodes({}, trace)
    && EdgesComplete(trace, universe) && SoundFrom(goals, trace, universe)
  }

  lemma BodyStep(goals: seq<Vertex>, i: int, trace: seq<Line>, sub: seq<Line>, after: set<Vertex>, universe: set<Vertex>)
    requires 0 <= i < |goals| && Body(goals, trace, universe)
    requires Printed(Nodes(trace), sub, after, universe) && Sound(goals[i], sub, universe)
    ensures after == Nodes(trace + sub) && Body(goals, trace + sub, universe)
  {
    DigraphStep(trace, sub, after, universe);
    SoundFromStep(goals, i, trace, sub, universe);
  }

  /** One turn of digraph's loop: print the goal's subgraph after the body so far. */
  method PrintGoal(goals: seq<Vertex>, i: int, trace: seq<Line>, visited: set<Vertex>, ghost universe: set<Vertex>)
    returns (trace': seq<Line>, visited': set<Vertex>)
    requires 0 <= i < |goals| && Closed(universe) && goals[i] in universe
    requires visited == Nodes(trace) && Body(goals, trace, universe)
    ensures |trace| <= |trace'| && trace'[..|trace|] == trace
    ensures visited' == Nodes(trace') && Body(goals, trace', universe)
    ensures visited <= visited' && goals[i] in visited'
  {
    var sub, after := PrintNodesAndDeps(goals[i], visited, universe);
    BodyStep(goals, i, trace, sub, after, universe);
    trace' := trace + sub;
    visited' := after;
    assert trace'[..|trace|] == trace;
  }

  /** deps.digraph: the header, every goal's subgraph printed once, the footer. */
  method Digraph(goals: seq<Vertex>, ghost universe: set<Vertex>)
    returns (lines: seq<string>, trace: seq<Line>)
    requires Closed(universe) && forall g :: g in goals ==> g in universe
    ensures lines == ["digraph G {"] + Texts(trace) + ["}"]
    ensures forall g :: g in goals ==> g in Nodes(trace)
    ensures Body(goals, trace, universe)
  {
    var visited: set<Vertex> := {};
    trace := [];
    assert Nodes(trace) == {};
    assert Body(goals, trace, universe);
    for i := 0 to |goals|
      invariant visited == Nodes(trace) && Body(goals, trace, universe)
      invariant forall k :: 0 <= k < i ==> goals[k] in visited
    {
      trace, visited := PrintGoal(goals, i, trace, visited, universe);
    }
    lines := ["digraph G {"] + Texts(trace) + ["}"];
  }
}
