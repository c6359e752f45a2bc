/** visitAst and visitFirstNode as functions over the compiler's mutable state: the
    specification the methods of the compiler class are proved against. */
module Visitor {
  import opened Text
  import opened Wrappers
  import opened Tree
  import opened Fragments
  import opened Imports
  import opened Escaping

  /** What the visitor reads and never changes: the `htmlEscape` option, the template's
      directory name, the declared parameters, and the collaborators defined outside the
      compiler (`%#v` quoting, Go's import-only parser, `Ast.hasNonExp`). */
  datatype Env = Env(escapeOff: bool, dir: string, params: seq<string>,
                     quote: string -> string,
                     parseImports: string -> Option<seq<ImportSpec>>,
                     hasNonExp: Ast -> bool)

  /** The fields of the compiler that the visitor updates. */
  datatype State = State(buf: string, layout: string, firstNode: bool, parts: seq<Part>,
                         imports: map<string, bool>)

  /** Why a compilation stops: the first node's text is not valid import syntax
      (`os.Exit(1)`), or a program node holds a token (a failed `c.(*Ast)` assertion). */
  datatype Fault = ImportsUnparsable | NotANode

  datatype Outcome = Ok(st: State) | Exit(fault: Fault)

  function Cfg(env: Env): ExpConfig {
    ExpConfig(env.escapeOff, env.dir, env.params)
  }

  /** Every import set to true in `a` is still set to true in `b`. */
  predicate Gains(a: map<string, bool>, b: map<string, bool>) {
    forall k :: k in a && a[k] ==> k in b && b[k]
  }

  /** Setting one key to true only gains; so does changing nothing. */
  lemma GainsUpdate(m: map<string, bool>, k: string)
    ensures Gains(m, m) && Gains(m, m[k := true])
  {
  }

  /** visitExp for the token at `idx` of the expression node `n`. */
  function ExpStep(env: Env, s: State, n: Ast, idx: nat, homo: bool, nested: bool): (r: State)
    requires idx < |n.children|
    ensures r.buf == s.buf && r.layout == s.layout && r.firstNode == s.firstNode
    ensures OpensEscape(Cfg(env), ValStr(n.children[idx]), idx, homo, nested)
            ==> r.imports == s.imports[Namespace := true]
    ensures !OpensEscape(Cfg(env), ValStr(n.children[idx]), idx, homo, nested) ==> r.imports == s.imports
    ensures Flat(r.parts) == Flat(s.parts)
              + ExpText(Cfg(env), ValStr(n.children[idx]), idx, |n.children|, homo, nested)
    ensures r.parts == AddPart(s.parts, Part(CSTAT, ExpText(Cfg(env), ValStr(n.children[idx]), idx, |n.children|, homo, nested)))
  {
    var val := ValStr(n.children[idx]);
    var imports := if OpensEscape(Cfg(env), val, idx, homo, nested) then s.imports[Namespace := true] else s.imports;
    var p := Part(CSTAT, ExpText(Cfg(env), val, idx, |n.children|, homo, nested));
    AddPartFlat(s.parts, p);
    s.(imports := imports, parts := AddPart(s.parts, p))
  }

  /** The two boundary children a control node drops when they are `{` and `}`. */
  predicate Skipped(n: Ast, i: nat) {
    n.mode == NODE && DropsBraces(n) && (i == 0 || i == |n.children| - 1)
  }

  /** A leaf child: visitMKP, visitNode or visitExp by the node's mode; a program node
      cannot hold one. */
  function LeafStep(env: Env, s: State, n: Ast, i: nat, nested: bool): Outcome
    requires i < |n.children|
  {
    var c := n.children[i];
    match n.mode
    case MKP => Ok(s.(parts := AddPart(s.parts, Part(CMKP, ValStr(c)))))
    case NODE => Ok(s.(parts := AddPart(s.parts, Part(CNODE, ValStr(c)))))
    case EXP => Ok(ExpStep(env, s, n, i, !env.hasNonExp(n), nested))
    case PRG => Exit(NotANode)
  }

  /** One iteration of the loop over the children of `n`. */
  function Step(env: Env, s: State, n: Ast, i: nat, nested: bool): Outcome
    requires i < |n.children|
    decreases n, 0, 0
  {
    if Skipped(n, i) then Ok(s)
    else
      match n.children[i]
      case Leaf(_) => LeafStep(env, s, n, i, nested)
      case Sub(m) => Visit(env, s, m, n.mode == EXP)
  }

  /** The loop over the first `k` children of `n`; a fault ends it. */
  function Kids(env: Env, s: State, n: Ast, k: nat, nested: bool): Outcome
    requires k <= |n.children|
    decreases n, 1, k
  {
    if k == 0 then Ok(s)
    else
      match Kids(env, s, n, k - 1, nested)
      case Exit(f) => Exit(f)
      case Ok(s') => Step(env, s', n, k - 1, nested)
  }

  /** visitAst: `nested` says that the parent of `n` is an expression node. */
  function Visit(env: Env, s: State, n: Ast, nested: bool): Outcome
    decreases n, if s.firstNode then 2 else 4, 0
  {
    match n.mode
    case MKP => Kids(env, s.(firstNode := true), n, |n.children|, nested)
    case EXP => Kids(env, s.(firstNode := true), n, |n.children|, nested)
    case PRG => Kids(env, s, n, |n.children|, nested)
    case NODE =>
      if !s.firstNode then FirstNode(env, s.(firstNode := true), n, nested)
      else Kids(env, s, n, |n.children|, nested)
  }

  /** visitFirstNode, entered once the flag is set (otherwise its own visit of `n` would
      come back to it): visit `n` into empty parts and buffer, flatten them, put the old
      parts and buffer back, parse the flattened text and file its imports. */
  function FirstNode(env: Env, s: State, n: Ast, nested: bool): Outcome
    requires s.firstNode
    decreases n, 3, 0
  {
    var scratch := s.(buf := "", parts := []);
    match Visit(env, scratch, n, nested)
    case Exit(f) => Exit(f)
    case Ok(s2) =>
      var first := GenText(env.quote, s2.parts);
      var s3 := s2.(buf := s.buf, parts := s.parts);
      match env.parseImports("package main\n" + first)
      case None => Exit(ImportsUnparsable)
      case Some(specs) => Ok(FileImports(s3, specs))
  }

  /** The key one import sets to true. */
  function ImportKey(spec: ImportSpec): string {
    match Classify(ImportValue(spec))
    case LayoutRef(_, d) => d
    case Plain(k) => k
  }

  /** The body of the loop over the parsed imports. */
  function FileImport(s: State, spec: ImportSpec): State {
    match Classify(ImportValue(spec))
    case LayoutRef(l, d) => s.(layout := l, imports := s.imports[d := true])
    case Plain(k) => s.(imports := s.imports[k := true])
  }

  function FileImports(s: State, specs: seq<ImportSpec>): State {
    if specs == [] then s else FileImport(FileImports(s, specs[..|specs| - 1]), specs[|specs| - 1])
  }

  /** The keys the imports set to true. */
  function KeySet(specs: seq<ImportSpec>): set<string> {
    if specs == [] then {} else KeySet(specs[..|specs| - 1]) + {ImportKey(specs[|specs| - 1])}
  }

  /** Filing the imports touches nothing but the layout and the import map, and the map
      becomes the old map with each import's key set to true. */
  lemma {:induction false} FileImportsFacts(s: State, specs: seq<ImportSpec>)
    ensures var r := FileImports(s, specs);
      r.buf == s.buf && r.firstNode == s.firstNode && r.parts == s.parts
      && r.imports.Keys == s.imports.Keys + KeySet(specs)
      && forall k :: k in r.imports ==> r.imports[k] == (k in KeySet(specs) || s.imports[k])
  {
    if specs != [] {
      FileImportsFacts(s, specs[..|specs| - 1]);
    }
  }

  predicate IsLayoutImport(spec: ImportSpec) {
    Classify(ImportValue(spec)).LayoutRef?
  }

  /** The layout changes only to the layout named by one of the imports. */
  lemma {:induction false} FileImportsLayout(s: State, specs: seq<ImportSpec>)
    ensures var r := FileImports(s, specs);
      r.layout == s.layout
      || exists j :: 0 <= j < |specs| && IsLayoutImport(specs[j]) && r.layout == Classify(ImportValue(specs[j])).layout
  {
    if specs != [] {
      var n := |specs|;
      var front := specs[..n - 1];
      FileImportsLayout(s, front);
      var q := FileImports(s, front);
      var r := FileImports(s, specs);
      if r.layout != q.layout {
        assert IsLayoutImport(specs[n - 1]);
      } else if q.layout != s.layout {
        var j :| 0 <= j < n - 1 && IsLayoutImport(front[j]) && q.layout == Classify(ImportValue(front[j])).layout;
        assert specs[j] == front[j];
      }
    }
  }

  /** Without a layout import the layout is left alone. */
  lemma {:induction false} NoLayoutImport(s: State, specs: seq<ImportSpec>)
    requires forall j :: 0 <= j < |specs| ==> !IsLayoutImport(specs[j])
    ensures FileImports(s, specs).layout == s.layout
  {
    if specs != [] {
      var front := specs[..|specs| - 1];
      assert forall j :: 0 <= j < |front| ==> front[j] == specs[j];
      NoLayoutImport(s, front);
    }
  }

  /** What a visit preserves once the flag is set: the flag, the buffer and the layout stay,
      imports only gain, and the parts stay merged. */
  predicate Keeps(s: State, r: State) {
    r.firstNode && r.buf == s.buf && r.layout == s.layout && Gains(s.imports, r.imports)
    && (Merged(s.parts) ==> Merged(r.parts))
  }

  lemma KeepsTransitive(a: State, b: State, c: State)
    requires Keeps(a, b) && Keeps(b, c)
    ensures Keeps(a, c)
  {
  }

  /** The text a leaf child stands for in the parts: its value, or for an expression node
      the statement text visitExp builds. */
  function LeafText(env: Env, n: Ast, i: nat, nested: bool): string
    requires i < |n.children|
  {
    if n.mode == EXP then ExpText(Cfg(env), ValStr(n.children[i]), i, |n.children|, !env.hasNonExp(n), nested)
    else ValStr(n.children[i])
  }

  /** Reference definition: the text a tree contributes, in document order, when the first
      node has already been seen — each emitted leaf's text, braces of control nodes left
      out, with no buffer and no merging involved. */
  function Emitted(env: Env, n: Ast, nested: bool): string
    decreases n, 1
  {
    EmittedKids(env, n, |n.children|, nested)
  }

  function EmittedKids(env: Env, n: Ast, k: nat, nested: bool): string
    requires k <= |n.children|
    decreases n, 0, k
  {
    if k == 0 then "" else EmittedKids(env, n, k - 1, nested) + ChildText(env, n, k - 1, nested)
  }

  /** The text child `i` contributes: nothing for a dropped brace or marker, the leaf's text,
      or what the sub-tree emits. */
  function ChildText(env: Env, n: Ast, i: nat, nested: bool): string
    requires i < |n.children|
    decreases n, 0, i
  {
    if Skipped(n, i) then ""
    else match n.children[i]
      case Leaf(_) => LeafText(env, n, i, nested)
      case Sub(m) => Emitted(env, m, n.mode == EXP)
  }

  /** A control node wrapped in `{` … `}` contributes what its inner children would
      contribute in a node that drops nothing (a markup node: its leaves also stand for
      their values and its sub-trees are not nested in an expression). */
  lemma BracesDropped(env: Env, tag: string, open: Token, mid: seq<Child>, close: Token, nested: bool)
    requires open.text == "{" && close.text == "}"
    ensures Emitted(env, Ast(NODE, tag, [Leaf(open)] + mid + [Leaf(close)]), nested)
         == Emitted(env, Ast(MKP, tag, mid), nested)
  {
    var n := Ast(NODE, tag, [Leaf(open)] + mid + [Leaf(close)]);
    var m := Ast(MKP, tag, mid);
    assert DropsBraces(n);
    BracesDroppedKids(env, n, m, |mid|, nested);
    assert Skipped(n, |mid| + 1);
    assert ChildText(env, n, |mid| + 1, nested) == "";
  }

  lemma {:induction false} BracesDroppedKids(env: Env, n: Ast, m: Ast, k: nat, nested: bool)
    requires n.mode == NODE && m.mode == MKP && DropsBraces(n)
    requires |n.children| == |m.children| + 2 && k <= |m.children|
    requires forall i :: 0 <= i < |m.children| ==> n.children[i + 1] == m.children[i]
    ensures EmittedKids(env, n, k + 1, nested) == EmittedKids(env, m, k, nested)
  {
    if k > 0 {
      BracesDroppedKids(env, n, m, k - 1, nested);
      assert n.children[k] == m.children[k - 1];
      assert ChildText(env, n, k, nested) == ChildText(env, m, k - 1, nested);
    }
  }

  /** With the flag set, a visit fails exactly on a malformed tree; otherwise it keeps the
      state's invariants and appends to the flattened parts exactly the reference text. */
  lemma VisitSeen(env: Env, s: State, n: Ast, nested: bool)
    requires s.firstNode
    ensures Visit(env, s, n, nested).Ok? <==> WellFormed(n)
    ensures Visit(env, s, n, nested).Ok? ==>
      Keeps(s, Visit(env, s, n, nested).st)
      && Flat(Visit(env, s, n, nested).st.parts) == Flat(s.parts) + Emitted(env, n, nested)
  {
    VisitOk(env, s, n, nested);
    if Visit(env, s, n, nested).Ok? {
      VisitFlat(env, s, n, nested);
    }
  }

  /** With the flag set, a visit succeeds exactly on a well-formed tree, and keeps the flag. */
  lemma {:induction false} VisitOk(env: Env, s: State, n: Ast, nested: bool)
    requires s.firstNode
    ensures Visit(env, s, n, nested).Ok? <==> WellFormed(n)
    ensures Visit(env, s, n, nested).Ok? ==> Visit(env, s, n, nested).st.firstNode
    decreases n, 2, 0
  {
    assert s.(firstNode := true) == s;
    assert Visit(env, s, n, nested) == Kids(env, s, n, |n.children|, nested);
    KidsOk(env, s, n, |n.children|, nested);
    assert Kids(env, s, n, |n.children|, nested).Ok? ==> forall i :: 0 <= i < |n.children| ==> ChildOk(n, i);
  }

  lemma {:induction false} KidsOk(env: Env, s: State, n: Ast, k: nat, nested: bool)
    requires s.firstNode && k <= |n.children|
    ensures Kids(env, s, n, k, nested).Ok? <==> forall i :: 0 <= i < k ==> ChildOk(n, i)
    ensures Kids(env, s, n, k, nested).Ok? ==> Kids(env, s, n, k, nested).st.firstNode
    decreases n, 1, k
  {
    if k > 0 {
      KidsOk(env, s, n, k - 1, nested);
      var o := Kids(env, s, n, k - 1, nested);
      if o.Ok? {
        StepOk(env, o.st, n, k - 1, nested);
      }
    }
  }

  lemma {:induction false} StepOk(env: Env, s: State, n: Ast, i: nat, nested: bool)
    requires s.firstNode && i < |n.children|
    ensures Step(env, s, n, i, nested).Ok? <==> ChildOk(n, i)
    ensures Step(env, s, n, i, nested).Ok? ==> Step(env, s, n, i, nested).st.firstNode
    decreases n, 0, 0
  {
    if !Skipped(n, i) {
      match n.children[i]
      case Leaf(_) =>
      case Sub(m) =>
        VisitOk(env, s, m, n.mode == EXP);
    }
  }

  /** A visit that succeeds with the flag set keeps the state's invariants and appends the
      reference text to the flattened parts. */
  lemma {:induction false} VisitFlat(env: Env, s: State, n: Ast, nested: bool)
    requires s.firstNode && Visit(env, s, n, nested).Ok?
    ensures Keeps(s, Visit(env, s, n, nested).st)
    ensures Flat(Visit(env, s, n, nested).st.parts) == Flat(s.parts) + Emitted(env, n, nested)
    decreases n, 2, 0
  {
    assert s.(firstNode := true) == s;
    assert Visit(env, s, n, nested) == Kids(env, s, n, |n.children|, nested);
    KidsFlat(env, s, n, |n.children|, nested);
  }

  lemma {:induction false} KidsFlat(env: Env, s: State, n: Ast, k: nat, nested: bool)
    requires s.firstNode && k <= |n.children| && Kids(env, s, n, k, nested).Ok?
    ensures Keeps(s, Kids(env, s, n, k, nested).st)
    ensures Flat(Kids(env, s, n, k, nested).st.parts) == Flat(s.parts) + EmittedKids(env, n, k, nested)
    decreases n, 1, k
  {
    if k > 0 {
      var o := Kids(env, s, n, k - 1, nested);
      assert o.Ok?;
      KidsFlat(env, s, n, k - 1, nested);
      var r := Step(env, o.st, n, k - 1, nested);
      assert Kids(env, s, n, k, nested) == r;
      StepFlat(env, o.st, n, k - 1, nested);
      KeepsTransitive(s, o.st, r.st);
      var e := EmittedKids(env, n, k - 1, nested);
      AppendAssoc(Flat(s.parts), e, ChildText(env, n, k - 1, nested));
    }
  }

  lemma {:induction false} StepFlat(env: Env, s: State, n: Ast, i: nat, nested: bool)
    requires s.firstNode && i < |n.children| && Step(env, s, n, i, nested).Ok?
    ensures Keeps(s, Step(env, s, n, i, nested).st)
    ensures Flat(Step(env, s, n, i, nested).st.parts) == Flat(s.parts) + ChildText(env, n, i, nested)
    decreases n, 0, 0
  {
    if !Skipped(n, i) {
      match n.children[i]
      case Leaf(_) =>
        var p := if n.mode == EXP
          then Part(CSTAT, ExpText(Cfg(env), ValStr(n.children[i]), i, |n.children|, !env.hasNonExp(n), nested))
          else Part(if n.mode == MKP then CMKP else CNODE, ValStr(n.children[i]));
        AddPartFlat(s.parts, p);
        if Merged(s.parts) {
          AddPartMerged(s.parts, p);
        }
      case Sub(m) =>
        VisitFlat(env, s, m, n.mode == EXP);
    }
  }

  /** The fault of a child stops the loop: the later children are never visited. */
  lemma {:induction false} KidsExit(env: Env, s: State, n: Ast, i: nat, k: nat, nested: bool)
    requires i <= k <= |n.children|
    requires Kids(env, s, n, i, nested).Exit?
    ensures Kids(env, s, n, k, nested) == Kids(env, s, n, i, nested)
    decreases k
  {
    if i < k {
      KidsExit(env, s, n, i, k - 1, nested);
    }
  }

  /** visitFirstNode puts the parts and the buffer back, so nothing of the first control node
      enters the body; it only files imports (and the layout) found in that node's text. */
  lemma FirstNodeRestores(env: Env, s: State, n: Ast, nested: bool)
    requires s.firstNode
    ensures FirstNode(env, s, n, nested).Ok? ==>
      var r := FirstNode(env, s, n, nested).st;
      r.parts == s.parts && r.buf == s.buf && r.firstNode && Gains(s.imports, r.imports)
  {
    var scratch := s.(buf := "", parts := []);
    VisitSeen(env, scratch, n, nested);
    var o := Visit(env, scratch, n, nested);
    if o.Ok? {
      var s3 := o.st.(buf := s.buf, parts := s.parts);
      match env.parseImports("package main\n" + GenText(env.quote, o.st.parts))
      case None =>
      case Some(specs) =>
        FileImportsFacts(s3, specs);
    }
  }

  /** The text of the first control node, as it is handed to the import parser: the
      flattened parts of its own visit. */
  lemma FirstNodeParses(env: Env, s: State, n: Ast, nested: bool)
    requires s.firstNode && WellFormed(n)
    ensures var scratch := s.(buf := "", parts := []);
      Visit(env, scratch, n, nested).Ok?
      && (FirstNode(env, s, n, nested).Ok?
          <==> env.parseImports("package main\n" + GenText(env.quote, Visit(env, scratch, n, nested).st.parts)).Some?)
  {
    VisitSeen(env, s.(buf := "", parts := []), n, nested);
  }

  /** Any visit, first node or not, keeps the buffer, only adds imports, keeps the parts
      merged, and leaves the flag set unless it is a program node visited before any
      other node. */
  lemma {:induction false} VisitAny(env: Env, s: State, n: Ast, nested: bool)
    ensures Visit(env, s, n, nested).Ok? ==>
      var r := Visit(env, s, n, nested).st;
      r.buf == s.buf && Gains(s.imports, r.imports) && (Merged(s.parts) ==> Merged(r.parts))
      && (s.firstNode || n.mode != PRG ==> r.firstNode)
    decreases n, 1, 0
  {
    if n.mode == PRG && !s.firstNode {
      KidsAny(env, s, n, |n.children|, nested);
    } else if n.mode == NODE && !s.firstNode {
      FirstNodeRestores(env, s.(firstNode := true), n, nested);
    } else {
      VisitSeen(env, s.(firstNode := true), n, nested);
      assert n.mode != PRG ==> Visit(env, s, n, nested) == Visit(env, s.(firstNode := true), n, nested);
    }
  }

  lemma {:induction false} KidsAny(env: Env, s: State, n: Ast, k: nat, nested: bool)
    requires k <= |n.children|
    ensures Kids(env, s, n, k, nested).Ok? ==>
      var r := Kids(env, s, n, k, nested).st;
      r.buf == s.buf && Gains(s.imports, r.imports) && (Merged(s.parts) ==> Merged(r.parts))
      && (s.firstNode ==> r.firstNode)
    decreases n, 0, k
  {
    if k > 0 {
      KidsAny(env, s, n, k - 1, nested);
      var o := Kids(env, s, n, k - 1, nested);
      if o.Ok? {
        StepAny(env, o.st, n, k - 1, nested);
        assert Kids(env, s, n, k, nested) == Step(env, o.st, n, k - 1, nested);
      }
    }
  }

  lemma {:induction false} StepAny(env: Env, s: State, n: Ast, i: nat, nested: bool)
    requires i < |n.children|
    ensures Step(env, s, n, i, nested).Ok? ==>
      var r := Step(env, s, n, i, nested).st;
      r.buf == s.buf && Gains(s.imports, r.imports) && (Merged(s.parts) ==> Merged(r.parts))
      && (s.firstNode ==> r.firstNode)
    decreases n, 0, 0
  {
    if !Skipped(n, i) {
      match n.children[i]
      case Leaf(_) =>
        if n.mode != PRG {
          var p := if n.mode == EXP
            then Part(CSTAT, ExpText(Cfg(env), ValStr(n.children[i]), i, |n.children|, !env.hasNonExp(n), nested))
            else Part(if n.mode == MKP then CMKP else CNODE, ValStr(n.children[i]));
          var r := Step(env, s, n, i, nested).st;
          assert r.parts == AddPart(s.parts, p);
          assert r.imports == s.imports || r.imports == s.imports[Namespace := true];
          GainsUpdate(s.imports, Namespace);
          if Merged(s.parts) {
            AddPartMerged(s.parts, p);
          }
        }
      case Sub(m) =>
        VisitAny(env, s, m, n.mode == EXP);
    }
  }

}
