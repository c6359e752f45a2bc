/** The compiler object: one mutable record that the visitor, the fragment buffer and the
    line passes update in place, with each method proved against the functions that
    specify it. */
module GoTpl {
  import opened Text
  import opened Wrappers
  import opened Tree
  import opened Fragments
  import opened Imports
  import opened Escaping
  import opened Blocks
  import opened Sections
  import opened Visitor

  /** The package of bytes.Buffer, always imported by the generated file. */
  const Bytes := "\"bytes\""

  /** The preamble visit writes before the body: the package clause, the listed imports and
      the function header with its buffer. */
  function Header(order: seq<string>, file: string, params: seq<string>): string {
    "package tpl\n\n import (\n" + Unlines(order) + "\n)\n func " + file + "(" + Join(params, ", ")
    + ") string {\n var _buffer bytes.Buffer\n"
  }

  /** The loop of visit that writes the parameters, with ", " between two of them. */
  method ParamList(params: seq<string>) returns (head: string)
    ensures head == Join(params, ", ")
  {
    head := "";
    var i := 0;
    while i < |params|
      invariant 0 <= i <= |params|
      invariant i == 0 ==> head == ""
      invariant i > 0 ==> head == Join(params[..i], ", ") + (if i < |params| then ", " else "")
    {
      head := head + params[i];
      if i != |params| - 1 {
        head := head + ", ";
      }
      if i > 0 {
        JoinSnoc(params[..i + 1], ", ");
        assert params[..i + 1][..i] == params[..i];
      }
      i := i + 1;
    }
    assert params[..|params|] == params;
  }

  /** The body of the loop of genPart for one part. */
  method PartText(quote: string -> string, p: Part) returns (text: string)
    ensures text == Contribution(quote, p)
  {
    text := "";
    if p.kind == CMKP && p.value != "" {
      var v := p.value;
      while HasSuffix(v, "\n")
        invariant TrimNewlines(v) == TrimNewlines(p.value)
        decreases |v|
      {
        v := v[..|v| - 1];
      }
      if v != "" {
        text := "_buffer.WriteString(" + quote(v) + ")\n";
      }
    } else if p.kind == CNODE {
      text := p.value + "\n";
    } else {
      text := p.value;
    }
  }

  /** The body of the loop of processBlock for the trimmed line `l` at depth `scope`: the
      new depth and the text written. */
  method BlockLine(scope: nat, l: string) returns (next: nat, written: string)
    ensures next == BlockNext(scope, l)
    ensures written == Unlines(BlockWritten(scope, l))
  {
    next := scope;
    written := "";
    if HasPrefix(l, "block") && HasSuffix(l, "{") {
      next := 1;
      written := "\n";
    } else if scope > 0 {
      if HasSuffix(l, "{") {
        next := scope + 1;
      } else if HasSuffix(l, "}") {
        next := scope - 1;
      }
      if next != 0 {
        written := l + "\n";
      }
    } else {
      written := l + "\n";
    }
  }

  /** The body of the loop of processSection for the trimmed line `l` at depth `scope` with
      the pending text `secOut`: the new depth, the new pending text and what is written. */
  method SectionLine(capitalize: string -> string, scope: nat, secOut: string, l: string)
    returns (next: nat, pending: string, emitted: string)
    ensures next == SectionNext(scope, l)
    ensures pending == SectionPending(scope, secOut, l)
    ensures emitted == SectionEmit(capitalize, scope, secOut, l)
  {
    next := scope;
    pending := secOut;
    emitted := "";
    if HasPrefix(l, "section") && HasSuffix(l, "{") {
      HeaderLength(l);
      var name := TrimSpace(l[7..|l| - 1]);
      emitted := "\n func " + capitalize(name) + " string {\n";
      pending := "return `\n";
      next := 1;
    } else if scope > 0 {
      if HasSuffix(l, "{") {
        next := scope + 1;
      } else if HasSuffix(l, "}") {
        next := scope - 1;
      }
      if next == 0 {
        pending := pending + "`\n}\n";
        emitted := pending;
        pending := "";
      } else {
        pending := pending + l + "\n";
      }
    } else {
      pending := pending + l + "\n";
    }
  }

  class Compiler {
    const ast: Ast
    /** The keys present in the options map. */
    const options: set<string>
    /** The base name of the template's directory. */
    const dir: string
    /** The name of the generated function. */
    const file: string
    /** The declared parameters, each a name and a type. */
    const params: seq<string>
    /** Go's `%#v` formatting of a string. */
    const quote: string -> string
    /** Capitalize, defined outside the compiler. */
    const capitalize: string -> string
    /** `parser.ParseFile(..., parser.ImportsOnly)`: the import declarations, or None on a
        syntax error. */
    const parseImports: string -> Option<seq<ImportSpec>>
    /** The node method hasNonExp, defined outside the compiler. */
    const hasNonExp: Ast -> bool

    var buf: string
    var layout: string
    var firstNode: bool
    var parts: seq<Part>
    var imports: map<string, bool>

    function Context(): Env {
      Env("htmlEscape" in options, dir, params, quote, parseImports, hasNonExp)
    }

    function Snapshot(): State
      reads this
    {
      State(buf, layout, firstNode, parts, imports)
    }

    /** makeCompiler: every mutable field starts empty; the function is named after the file,
        capitalized unless the `NameNotChange` option is present. */
    constructor (ast: Ast, options: set<string>, dir: string, base: string, params: seq<string>,
                 quote: string -> string, capitalize: string -> string,
                 parseImports: string -> Option<seq<ImportSpec>>, hasNonExp: Ast -> bool)
      ensures this.ast == ast && this.options == options && this.dir == dir && this.params == params
      ensures this.quote == quote && this.capitalize == capitalize
      ensures this.parseImports == parseImports && this.hasNonExp == hasNonExp
      ensures file == if "NameNotChange" in options then base else capitalize(base)
      ensures Snapshot() == State("", "", false, [], map[])
    {
      this.ast := ast;
      this.options := options;
      this.dir := dir;
      this.params := params;
      this.quote := quote;
      this.capitalize := capitalize;
      this.parseImports := parseImports;
      this.hasNonExp := hasNonExp;
      var name := base;
      if "NameNotChange" !in options {
        name := capitalize(base);
      }
      file := name;
      buf := "";
      layout := "";
      firstNode := false;
      parts := [];
      imports := map[];
    }

    /** addPart: merge into the last part when the kinds agree, push otherwise. */
    method AddPart(p: Part)
      modifies this
      ensures Snapshot() == old(Snapshot()).(parts := Fragments.AddPart(old(parts), p))
    {
      if |parts| == 0 {
        parts := parts + [p];
        return;
      }
      var last := parts[|parts| - 1];
      if last.kind == p.kind {
        parts := parts[|parts| - 1 := Part(last.kind, last.value + p.value)];
      } else {
        parts := parts + [p];
      }
    }

    /** genPart: the buffer becomes the contributions of the parts, in order. */
    method GenPart()
      modifies this
      ensures Snapshot() == old(Snapshot()).(buf := GenText(quote, old(parts)))
    {
      var ps := parts;
      var res := "";
      var i := 0;
      while i < |ps|
        modifies {}
        invariant 0 <= i <= |ps|
        invariant res == GenText(quote, ps[..i])
      {
        var text := PartText(quote, ps[i]);
        res := res + text;
        assert ps[..i + 1][..i] == ps[..i];
        i := i + 1;
      }
      assert ps[..|ps|] == ps;
      buf := res;
    }

    method VisitNode(child: Child)
      modifies this
      ensures Snapshot() == old(Snapshot()).(parts := Fragments.AddPart(old(parts), Part(CNODE, ValStr(child))))
    {
      AddPart(Part(CNODE, ValStr(child)));
    }

    method VisitMkp(child: Child)
      modifies this
      ensures Snapshot() == old(Snapshot()).(parts := Fragments.AddPart(old(parts), Part(CMKP, ValStr(child))))
    {
      AddPart(Part(CMKP, ValStr(child)));
    }

    /** The switch of visitExp that decides whether the token `val` is escaped. */
    method NeedEscape(val: string) returns (needEscape: bool)
      ensures needEscape == NeedsEscape(Cfg(Context()), val)
    {
      needEscape := true;
      if val == "helper" || val == "html" || val == "raw" {
        needEscape := false;
      } else if dir == "layout" {
        var found := ScanParams(params, val);
        needEscape := !found;
      }
    }

    /** The statement text visitExp builds for the token `val` at `idx` of an expression
        node with `count` children, and whether it opened the escape wrapper. */
    method ExpStatement(val: string, idx: nat, count: nat, isHomo: bool, nested: bool)
      returns (v: string, escaped: bool)
      ensures v == ExpText(Cfg(Context()), val, idx, count, isHomo, nested)
      ensures escaped == OpensEscape(Cfg(Context()), val, idx, isHomo, nested)
    {
      var start := "";
      var end := "";
      escaped := false;
      if "htmlEscape" !in options {
        if !nested && idx == 0 && isHomo {
          var needEscape := NeedEscape(val);
          if needEscape {
            start := start + EscapeOpen;
            escaped := true;
          } else {
            start := start + "(";
          }
        }
        if !nested && idx == count - 1 && isHomo {
          end := end + ")";
        }
      }
      ghost var c := Cfg(Context());
      assert start == if !c.escapeOff && !nested && idx == 0 && isHomo then
        (if NeedsEscape(c, val) then EscapeOpen else "(") else "";
      assert end == if !c.escapeOff && !nested && idx == count - 1 && isHomo then ")" else "";
      if !nested && idx == 0 {
        start := WriteOpen + start;
      }
      if !nested && idx == count - 1 {
        end := end + ")\n";
      }
      v := start;
      if val == "raw" {
        v := v + end;
      } else {
        v := v + val + end;
      }
    }

    /** visitExp for the token at `idx` of `parent`; `nested` says that the parent of
        `parent` is an expression node. Opening the escape wrapper imports its package. */
    method VisitExp(parent: Ast, idx: nat, isHomo: bool, nested: bool)
      requires idx < |parent.children|
      modifies this
      ensures Snapshot() == ExpStep(Context(), old(Snapshot()), parent, idx, isHomo, nested)
    {
      var v, escaped := ExpStatement(ValStr(parent.children[idx]), idx, |parent.children|, isHomo, nested);
      if escaped {
        imports := imports[Namespace := true];
      }
      AddPart(Part(CSTAT, v));
    }

    /** visitAst; `nested` says that the parent of `node` is an expression node. A false
        result is a compilation that stopped (a panic or `os.Exit`), after which the state
        is not specified. The loop of each case is a method of its own below. */
    method VisitAst(node: Ast, nested: bool) returns (ok: bool)
      modifies this
      ensures ok == Visitor.Visit(Context(), old(Snapshot()), node, nested).Ok?
      ensures ok ==> Snapshot() == Visitor.Visit(Context(), old(Snapshot()), node, nested).st
      decreases node, if firstNode then 2 else 4, 1
    {
      match node.mode
      case MKP =>
        firstNode := true;
        ok := VisitMarkupChildren(node, nested);
      case NODE =>
        if !firstNode {
          firstNode := true;
          ok := VisitFirstNode(node, nested);
        } else {
          ok := VisitControlChildren(node, nested);
        }
      case EXP =>
        firstNode := true;
        ok := VisitExpChildren(node, nested);
      case PRG =>
        ok := VisitProgramChildren(node, nested);
    }

    /** The loop of a markup node: tokens become markup parts. */
    method VisitMarkupChildren(node: Ast, nested: bool) returns (ok: bool)
      requires node.mode == MKP
      modifies this
      ensures ok == Kids(Context(), old(Snapshot()), node, |node.children|, nested).Ok?
      ensures ok ==> Snapshot() == Kids(Context(), old(Snapshot()), node, |node.children|, nested).st
      decreases node, if firstNode then 2 else 4, 0
    {
      ghost var s0 := Snapshot();
      var i := 0;
      while i < |node.children|
        invariant 0 <= i <= |node.children|
        invariant Kids(Context(), s0, node, i, nested) == Ok(Snapshot())
      {
        match node.children[i] {
          case Leaf(_) =>
            VisitMkp(node.children[i]);
          case Sub(m) =>
            var r := VisitAst(m, false);
            if !r {
              KidsExit(Context(), s0, node, i + 1, |node.children|, nested);
              return false;
            }
        }
        i := i + 1;
      }
      ok := true;
    }

    /** The loop of a control node after the first: tokens become control parts, except a
        leading `{` and trailing `}` pair. */
    method VisitControlChildren(node: Ast, nested: bool) returns (ok: bool)
      requires node.mode == NODE
      modifies this
      ensures ok == Kids(Context(), old(Snapshot()), node, |node.children|, nested).Ok?
      ensures ok ==> Snapshot() == Kids(Context(), old(Snapshot()), node, |node.children|, nested).st
      decreases node, if firstNode then 2 else 4, 0
    {
      ghost var s0 := Snapshot();
      var remove := false;
      if |node.children| >= 2 {
        var first := node.children[0];
        var last := node.children[|node.children| - 1];
        if first.Leaf? && last.Leaf? && first.tok.text == "{" && last.tok.text == "}" {
          remove := true;
        }
      }
      assert remove == DropsBraces(node);
      var i := 0;
      while i < |node.children|
        invariant 0 <= i <= |node.children|
        invariant Kids(Context(), s0, node, i, nested) == Ok(Snapshot())
      {
        if remove && (i == 0 || i == |node.children| - 1) {
          i := i + 1;
          continue;
        }
        match node.children[i] {
          case Leaf(_) =>
            VisitNode(node.children[i]);
          case Sub(m) =>
            var r := VisitAst(m, false);
            if !r {
              KidsExit(Context(), s0, node, i + 1, |node.children|, nested);
              return false;
            }
        }
        i := i + 1;
      }
      ok := true;
    }

    /** The loop of an expression node: tokens go through visitExp, with the group
        homogeneous when the node has no non-expression child. */
    method VisitExpChildren(node: Ast, nested: bool) returns (ok: bool)
      requires node.mode == EXP
      modifies this
      ensures ok == Kids(Context(), old(Snapshot()), node, |node.children|, nested).Ok?
      ensures ok ==> Snapshot() == Kids(Context(), old(Snapshot()), node, |node.children|, nested).st
      decreases node, if firstNode then 2 else 4, 0
    {
      ghost var s0 := Snapshot();
      var nonExp := hasNonExp(node);
      var i := 0;
      while i < |node.children|
        invariant 0 <= i <= |node.children|
        invariant Kids(Context(), s0, node, i, nested) == Ok(Snapshot())
      {
        match node.children[i] {
          case Leaf(_) =>
            VisitExp(node, i, !nonExp, nested);
          case Sub(m) =>
            var r := VisitAst(m, true);
            if !r {
              KidsExit(Context(), s0, node, i + 1, |node.children|, nested);
              return false;
            }
        }
        i := i + 1;
      }
      ok := true;
    }

    /** The loop of a program node: every child must be a node (`c.(*Ast)`); a token
        stops the compilation. */
    method VisitProgramChildren(node: Ast, nested: bool) returns (ok: bool)
      requires node.mode == PRG
      modifies this
      ensures ok == Kids(Context(), old(Snapshot()), node, |node.children|, nested).Ok?
      ensures ok ==> Snapshot() == Kids(Context(), old(Snapshot()), node, |node.children|, nested).st
      decreases node, if firstNode then 2 else 4, 0
    {
      ghost var s0 := Snapshot();
      var i := 0;
      while i < |node.children|
        invariant 0 <= i <= |node.children|
        invariant Kids(Context(), s0, node, i, nested) == Ok(Snapshot())
      {
        match node.children[i] {
          case Leaf(_) =>
            KidsExit(Context(), s0, node, i + 1, |node.children|, nested);
            return false;
          case Sub(m) =>
            var r := VisitAst(m, false);
            if !r {
              KidsExit(Context(), s0, node, i + 1, |node.children|, nested);
              return false;
            }
        }
        i := i + 1;
      }
      ok := true;
    }

    /** visitFirstNode: visit `node` into an empty buffer, flatten it, restore the buffer and
        the parts, and file the imports the parser finds in the flattened text. */
    method VisitFirstNode(node: Ast, nested: bool) returns (ok: bool)
      requires firstNode
      modifies this
      ensures ok == FirstNode(Context(), old(Snapshot()), node, nested).Ok?
      ensures ok ==> Snapshot() == FirstNode(Context(), old(Snapshot()), node, nested).st
      decreases node, 3, 0
    {
      var pre := buf;
      buf := "";
      var backup := parts;
      parts := [];
      var r := VisitAst(node, nested);
      if !r {
        return false;
      }
      GenPart();
      var first := buf;
      buf := pre;
      parts := backup;
      var found := parseImports("package main\n" + first);
      match found
      case None =>
        ok := false;
      case Some(specs) =>
        FileParsedImports(specs);
        ok := true;
    }

    /** The loop of visitFirstNode over the parsed imports. */
    method FileParsedImports(specs: seq<ImportSpec>)
      modifies this
      ensures Snapshot() == FileImports(old(Snapshot()), specs)
    {
      ghost var s0 := Snapshot();
      var j := 0;
      while j < |specs|
        invariant 0 <= j <= |specs|
        invariant Snapshot() == FileImports(s0, specs[..j])
      {
        match Classify(ImportValue(specs[j])) {
          case LayoutRef(l, d) =>
            layout := l;
            imports := imports[d := true];
          case Plain(k) =>
            imports := imports[k := true];
        }
        assert specs[..j + 1][..j] == specs[..j];
        j := j + 1;
      }
      assert specs[..|specs|] == specs;
    }

    /** processBlock: rewrite the buffer line by line, unwrapping `block … {` regions. */
    method ProcessBlock()
      modifies this
      ensures Snapshot() == old(Snapshot()).(buf := BlockText(old(buf)))
    {
      var lines := Split(buf, '\n');
      ghost var ts := TrimAll(lines);
      var out := "";
      var scope: nat := 0;
      var i := 0;
      while i < |lines|
        modifies {}
        invariant 0 <= i <= |lines|
        invariant Unlines(BlockKept(0, ts)) == out + Unlines(BlockKept(scope, ts[i..]))
      {
        var l := TrimSpace(lines[i]);
        assert l == ts[i];
        BlockScanStep(ts, i, scope, out);
        var written;
        scope, written := BlockLine(scope, l);
        out := out + written;
        i := i + 1;
      }
      assert ts[|lines|..] == [];
      buf := out;
    }

    /** processSection: set the two fixed imports to false, list the true ones, then keep
        only the section functions found in the buffer. */
    method ProcessSection()
      modifies this
      ensures imports == old(imports)[Namespace := false][Bytes := false]
      ensures layout == old(layout) && firstNode == old(firstNode) && parts == old(parts)
      ensures exists order :: (Listing(order, imports)
        && buf == "package tpl\n\n import (\n" + Unlines(order) + ")\n" + SectionText(capitalize, old(buf)))
    {
      imports := imports[Namespace := false][Bytes := false];
      var listed := ListImports(imports);
      var head := "package tpl\n\n import (\n" + listed + ")\n";
      var lines := Split(buf, '\n');
      ghost var ts := TrimAll(lines);
      var out := "";
      var scope: nat := 0;
      var secOut := "";
      var i := 0;
      while i < |lines|
        modifies {}
        invariant 0 <= i <= |lines|
        invariant SectionOut(capitalize, 0, "", ts) == out + SectionOut(capitalize, scope, secOut, ts[i..])
      {
        var l := TrimSpace(lines[i]);
        assert l == ts[i];
        SectionScanStep(capitalize, ts, i, scope, secOut, out);
        var emitted;
        scope, secOut, emitted := SectionLine(capitalize, scope, secOut, l);
        out := out + emitted;
        i := i + 1;
      }
      assert ts[|lines|..] == [];
      buf := head + out;
    }

    /** visit: the whole compilation of the tree. The result is the preamble, the flattened
        parts, both passed through processBlock, and the final return statement. */
    method Visit() returns (ok: bool)
      modifies this
      ensures var o := Visitor.Visit(Context(), old(Snapshot()), ast, false);
        ok == o.Ok?
        && (ok ==>
              parts == o.st.parts && layout == o.st.layout && firstNode == o.st.firstNode
              && imports == o.st.imports[Bytes := true]
              && exists order :: Listing(order, imports)
                   && buf == BlockText(Header(order, file, params) + GenText(quote, o.st.parts))
                             + "return _buffer.String()\n}")
    {
      ok := VisitAst(ast, false);
      if !ok {
        return;
      }
      GenPart();
      var fun := file;
      imports := imports[Bytes := true];
      var listed := ListImports(imports);
      var plist := ParamList(params);
      var head := "package tpl\n\n import (\n" + listed + "\n)\n func " + fun + "(" + plist
                  + ") string {\n var _buffer bytes.Buffer\n";
      ghost var order :| Listing(order, imports) && listed == Unlines(order);
      assert head == Header(order, file, params);
      buf := head + buf;
      ProcessBlock();
      buf := buf + "return _buffer.String()\n}";
    }
  }
}
