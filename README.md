# gotpl compiler core in Dafny

gotpl compiles a Razor-like template into Go source. Its parser (not part of this model)
turns a template into a tree of nodes. Each node has a mode: program, markup, control
node or expression. The `Compiler` of `gotpl/compiler.go` walks that tree and produces the
generated file. It builds the file in four steps:

- The visitor (`visitAst`, `visitMKP`, `visitNode`, `visitExp`, `getValStr`) appends typed
  fragments (`Part`s of kind markup, control or statement) to a buffer. `addPart` merges a
  fragment into the last one when their kinds agree.
- A control node reached before any markup or expression node (a template that starts
  with one) is handled by `visitFirstNode`; a template that starts with markup or an
  expression never runs it. That node is rendered
  into a scratch buffer, and the old buffer is then put back. The scratch text is parsed for
  Go import declarations. An import whose next-to-last path segment is `layout` sets the
  template's layout.
- `genPart` flattens the fragments into Go statements. Markup loses its trailing newlines
  and becomes `_buffer.WriteString("…")`, or nothing when only newlines were left. Control
  text is written followed by a newline. Statement parts, built by `visitExp`, are written
  verbatim. At the top level, an expression becomes `_buffer.WriteString(gotpl.HTMLEscape(…))`,
  `_buffer.WriteString((…))` or, with `htmlEscape` or in a group with a non-expression child,
  `_buffer.WriteString(…)`. The write call is opened by the token at index 0 and closed by
  the token at the last index, so a sub-tree in either position leaves it unopened or
  unclosed. Inside another expression, its tokens are bare text.
- `visit` puts an import header and a function header in front of the body. It then runs
  the line pass `processBlock` and appends the return statement. A second line pass,
  `processSection`, turns `section Name {` regions into functions of their own.

The model has one module per concern:

- `Tree`: the template tree and `getValStr`.
- `Fragments`: `addPart`, and the contribution of each part to `genPart`.
- `Escaping`: the statement text `visitExp` builds and its escape decision.
- `Imports`: the layout rule for import declarations, and the listing of the import map.
- `Blocks` and `Sections`: the two line passes, specified as folds over the trimmed lines.
- `Visitor`: `visitAst` and `visitFirstNode` as functions over the compiler's state, with
  the lemmas about them.
- `GoTpl`: the `Compiler` class. Its fields are updated in place by methods that mirror the
  Go methods, loop for loop. Each method is proved against the functions above.
- `Text` and `Wrappers`: the Go string functions the compiler uses, and an `Option` type.

Collaborators defined outside `compiler.go` are function-valued fields of the class, with
no properties assumed:

- `%#v` quoting;
- `Capitalize`;
- Go's import-only parser;
- `Ast.hasNonExp`.

A compilation that stops is a result value, not a crash. This covers a panic on a token under a
program node and `os.Exit(1)` when the first node does not parse.

Some behaviours of the code that a reader of `compiler.go` might not expect, all modelled as
written:

- `processBlock` keeps the lines inside a `block … {` region. Only the header line is
  dropped, written as an empty line, and so is the line that closes the region.
  `Blocks.RegionExample` shows that `A`, `block x {`, `REMOVED`, `}`, `B` becomes `A`, an
  empty line, `REMOVED`, `B`.
- `processSection` drops every line outside a section. `visit` never calls
  `processSection`; the model keeps it as a method of its own.
- Nothing in `compiler.go` ever fills `params`, and `makeCompiler` starts it empty. The
  model takes them as an input of the constructor.
- When an import has a local name, the layout recorded is the name, a space and the path
  without quotes, because the code classifies the name and the path together.

## Model

| member | source | states |
|---|---|---|
| Tree.ValStr | gotpl/compiler.go:20-32 | a sub-tree stands for its tag name; a token stands for its text, except the `AT` and `AT_COLON` markers, which stand for the empty text |
| Fragments.AddPart | gotpl/compiler.go:53-64 | one of two things happens: the result is one longer and ends with the new part, or the last part's value is extended by the new value; either way every earlier part is unchanged; the buffer grows exactly when it is empty or the kinds differ |
| Fragments.AddPartMerged | gotpl/compiler.go:53-64 | addPart keeps the buffer free of two neighbouring parts of the same kind |
| Fragments.AddPartFlat | gotpl/compiler.go:53-64 | addPart appends the new value to the concatenation of all part values |
| Fragments.AddPartKindText | gotpl/compiler.go:53-64 | addPart appends the new value to the text of its own kind, and changes no other kind's text |
| Fragments.AddPartSameKindTwice | gotpl/compiler.go:58-60 | adding two parts of one kind leaves the same buffer as adding one part with the two values joined |
| Fragments.AddPartsFlat | gotpl/compiler.go:53-64 | after any series of addPart calls, the buffer is still merged and its flattened text is the added values in call order |
| GoTpl.Compiler.AddPart | gotpl/compiler.go:53-64 | the method updates the parts in place as the addPart function says, and changes no other field |
| Fragments.Contribution | gotpl/compiler.go:68-82 | a control part gives its value and a newline; a statement part gives its value; a markup part loses all its trailing newlines, then gives a `_buffer.WriteString(` of its quoted value, or nothing when no text is left |
| Fragments.NewlinesOnlyMarkup | gotpl/compiler.go:69-77 | a markup part made only of newlines gives no statement |
| Fragments.GenTextConcat | gotpl/compiler.go:66-85 | the flattened text of two buffers put together is the text of the first followed by the text of the second, so each part contributes on its own, in buffer order |
| GoTpl.PartText | gotpl/compiler.go:69-82 | the loop body of genPart, including its inner loop that strips newlines, computes exactly the contribution of the part |
| GoTpl.Compiler.GenPart | gotpl/compiler.go:66-85 | the buffer becomes the in-order contributions of all parts; nothing else changes |
| GoTpl.Compiler.constructor | gotpl/compiler.go:87-101 | the function is named after the file, capitalized unless `NameNotChange` is among the options; the buffer, layout, parts and imports start empty and the first-node flag starts unset |
| GoTpl.Compiler.VisitNode | gotpl/compiler.go:103-105 | adds a control part holding the child's text |
| GoTpl.Compiler.VisitMkp | gotpl/compiler.go:107-109 | adds a markup part holding the child's text |
| Escaping.OpensEscapeExactly | gotpl/compiler.go:158-189 | the escape wrapper opens exactly when all of these hold: `htmlEscape` is absent, the node is not inside an expression, the token is first, the group is homogeneous, the value is not `helper`, `html` or `raw`, and it is not a layout template with a parameter starting with the value and a space |
| Escaping.BypassKeywords | gotpl/compiler.go:167-168 | `helper`, `html` and `raw` never get the wrapper |
| Escaping.NestedIsTokenText | gotpl/compiler.go:159-205 | inside an expression nested in another expression, a token adds its own text only, and `raw` adds nothing |
| Escaping.SingleTokenStatement | gotpl/compiler.go:163-205 | an expression with one token becomes one write call; the escape wrapper, a plain `(`, or (with `htmlEscape`) no wrapper encloses the value, and `raw` is dropped |
| Escaping.TopLevelToken | gotpl/compiler.go:153-205 | for every option, group kind and index, a token of a top-level expression writes: the write call and the wrapper if it is the first, its value (nothing for `raw`), and the closing of the wrapper and of the call if it is the last; so the first starts with `_buffer.WriteString(` and the last ends with `)` and a newline |
| Escaping.GroupStatement | gotpl/compiler.go:153-205 | for every option and group kind, a top-level expression of tokens becomes one write call: the wrapper chosen by the first token (none with `htmlEscape` or in a mixed group), all token values in order, then the wrapper's closing parenthesis and the call's |
| Escaping.ScanParams | gotpl/compiler.go:171-176 | the loop finds a parameter exactly when some parameter starts with the value followed by a space |
| GoTpl.Compiler.NeedEscape | gotpl/compiler.go:165-177 | the switch gives false for the bypass keywords; in a `layout` directory it gives false when a parameter declares the value; otherwise it gives true |
| GoTpl.Compiler.ExpStatement | gotpl/compiler.go:153-203 | the start and end strings built step by step give the statement text of the escaping rules, and opening the wrapper is reported exactly when those rules open it |
| Visitor.ExpStep | gotpl/compiler.go:152-206 | visitExp adds one statement part, and the flattened text grows by exactly that statement; the escape package is imported exactly when the wrapper opens; the buffer, layout and flag stay |
| GoTpl.Compiler.VisitExp | gotpl/compiler.go:152-206 | the method updates the compiler as visitExp's specification says |
| GoTpl.Compiler.VisitAst | gotpl/compiler.go:208-260 | the method succeeds exactly when the visit function succeeds, and the state it leaves is the state that function gives |
| GoTpl.Compiler.VisitMarkupChildren | gotpl/compiler.go:210-218 | the markup loop follows the visitor's loop over the children, and a failed child stops it |
| GoTpl.Compiler.VisitControlChildren | gotpl/compiler.go:223-243 | the control loop follows the visitor's loop, and skips a leading `{` and a trailing `}` pair |
| GoTpl.Compiler.VisitExpChildren | gotpl/compiler.go:245-254 | the expression loop follows the visitor's loop; the group is homogeneous when the node has no non-expression child |
| GoTpl.Compiler.VisitProgramChildren | gotpl/compiler.go:255-258 | the program loop follows the visitor's loop; a token child stops the compilation |
| Visitor.VisitSeen | gotpl/compiler.go:208-260 | once the first node is seen, a visit fails exactly on a tree with a token under a program node; otherwise it keeps the flag, buffer and layout, only adds imports, keeps the parts merged, and appends the tree's reference text in document order |
| Visitor.VisitOk | gotpl/compiler.go:208-260 | once the first node is seen, a visit succeeds exactly on a well-formed tree, and leaves the flag set |
| Visitor.VisitFlat | gotpl/compiler.go:208-260 | a successful visit after the first node appends exactly the reference text to the flattened parts |
| Visitor.BracesDropped | gotpl/compiler.go:224-237 | a control node whose children start with `{` and end with `}` contributes what its inner children contribute, so exactly those two tokens are dropped |
| Visitor.KidsExit | gotpl/compiler.go:212-258 | once a child fails, the later children are never visited, and the result is that failure |
| Visitor.VisitAny | gotpl/compiler.go:208-260 | any successful visit keeps the buffer and only adds imports; it keeps the parts merged and sets the flag, unless it is a program node met before any other node |
| Visitor.FirstNodeRestores | gotpl/compiler.go:113-128 | visitFirstNode restores the parts and the buffer, so nothing of the first control node enters the body; it only sets imports, and never clears one |
| Visitor.FirstNodeParses | gotpl/compiler.go:121-133 | the text handed to the parser is the flattened visit of the first node; the compilation goes on exactly when that text parses |
| GoTpl.Compiler.VisitFirstNode | gotpl/compiler.go:113-150 | the method swaps, visits, flattens, restores and files the imports exactly as visitFirstNode's specification says; a parse error stops the compilation |
| Imports.ImportValue | gotpl/compiler.go:136-139 | the filed text is the path literal, preceded by the local name and a space when there is one |
| Imports.Classify | gotpl/compiler.go:140-147 | a layout reference records the text without quotes and imports a key ending with a quote; any other import is filed as written |
| Imports.LayoutImport | gotpl/compiler.go:140-144 | `a/layout/b`, where `b` has no slash, sets the layout to the text without quotes and imports `a/layout` with a closing quote |
| Imports.QuotedLayoutImport | gotpl/compiler.go:140-144 | `"p/layout/b"` sets the layout to `p/layout/b` and imports `"p/layout"` |
| Imports.BareLayoutImport | gotpl/compiler.go:140-144 | `layout/b`, where `b` has no slash, sets the layout to the text without quotes and imports `layout` with a closing quote |
| Imports.LayoutKeyIsParent | gotpl/compiler.go:140-144 | the other direction: a layout reference is its directory key without the quote, a slash and a last segment without a slash, and that directory is `layout` or ends with `/layout`; with the two lemmas above, an import is a layout reference exactly when its next-to-last segment is `layout` |
| Imports.TwoSegments | gotpl/compiler.go:145-146 | an import of two segments is filed as written unless its first segment is `layout` |
| Imports.PlainExample | gotpl/compiler.go:145-146 | `"pkg/util"` is filed as written, with no layout effect |
| Visitor.FileImportsFacts | gotpl/compiler.go:135-148 | filing the imports sets each import's key to true, keeps every other entry, and leaves the buffer, flag and parts alone |
| Visitor.FileImportsLayout | gotpl/compiler.go:141-147 | the layout either stays or becomes the layout named by one of the imports |
| Visitor.NoLayoutImport | gotpl/compiler.go:145-147 | without a layout import the layout is left alone |
| GoTpl.Compiler.FileParsedImports | gotpl/compiler.go:135-148 | the loop over the parsed imports updates the layout and the import map as the filing function says |
| Imports.ListImports | gotpl/compiler.go:294-298 | the listed lines are the keys mapped to true, each once, in some order |
| Blocks.KeptInOrder | gotpl/compiler.go:262-288 | the pass only drops lines: what it writes is a subsequence of the input lines, in order, with a header shown as an empty line |
| Blocks.KeptTrimmed | gotpl/compiler.go:267 | every written line is trimmed |
| Blocks.HeaderStep | gotpl/compiler.go:268-270 | a `block … {` line, even inside a region, becomes an empty line and sets the depth to 1 |
| Blocks.CloserStep | gotpl/compiler.go:271-279 | the line that brings the depth back to 0 is dropped |
| Blocks.InsideRegion | gotpl/compiler.go:271-281 | inside a region, lines ending with neither brace are kept in order and leave the depth alone |
| Blocks.InsideNested | gotpl/compiler.go:271-281 | inside a region, header-free lines that never bring the depth to 0 are all kept in order, nested `{ … }` pairs included, and the pass goes on at the depth they reach |
| Blocks.OutsideRegion | gotpl/compiler.go:282-284 | outside any region, lines without a header are kept in order |
| Blocks.Region | gotpl/compiler.go:262-288 | a whole region, whose body may hold nested `{ … }` pairs: the lines before it are kept, its header becomes an empty line, its body is kept, the line that brings the depth back to 0 is dropped, and the pass restarts at depth 0 |
| Blocks.RegionExample | gotpl/compiler.go:262-288 | `A`, `block x {`, `REMOVED`, `}`, `B` gives `A`, an empty line, `REMOVED`, `B` |
| GoTpl.BlockLine | gotpl/compiler.go:267-284 | one iteration gives the depth and the written text of the pass's specification |
| GoTpl.Compiler.ProcessBlock | gotpl/compiler.go:262-288 | the buffer becomes the pass's specification applied to its trimmed lines; nothing else changes |
| Sections.HeaderLength | gotpl/compiler.go:307-309 | a section header is at least eight characters long, so the slice of its name is in bounds |
| Sections.SectionName | gotpl/compiler.go:308-309 | the name of a section is trimmed |
| Sections.TopLevelIgnored | gotpl/compiler.go:326-328 | outside a section, the pending text never reaches the output |
| Sections.TopLevelDiscarded | gotpl/compiler.go:305-329 | top-level lines before a section never reach the output |
| Sections.NoSectionNoOutput | gotpl/compiler.go:305-329 | without a section header the pass writes nothing |
| Sections.SectionBody | gotpl/compiler.go:313-325 | inside a section, lines ending with neither brace are collected in order into its body |
| Sections.SectionNested | gotpl/compiler.go:313-325 | inside a section, header-free lines that never bring the depth to 0 are collected in order into its body, nested `{ … }` pairs included; nothing is written for them |
| Sections.Section | gotpl/compiler.go:305-329 | a closed section, whose body may hold nested `{ … }` pairs, gives a `func Name string {` header, a raw-string `return` of its body, and the closing lines; then the pass goes on at depth 0 |
| Sections.UnclosedSection | gotpl/compiler.go:305-329 | a section whose depth never returns to 0 gives its function header and nothing of its body, whatever braces the body holds |
| GoTpl.SectionLine | gotpl/compiler.go:306-328 | one iteration gives the depth, the pending text and the written text of the pass's specification |
| GoTpl.Compiler.ProcessSection | gotpl/compiler.go:290-332 | the escape package and `"bytes"` are set to false; the buffer becomes the header listing the true imports, followed by the sections of the old buffer; the layout, flag and parts stay |
| GoTpl.ParamList | gotpl/compiler.go:351-356 | the parameters are written in order, with `, ` between two of them |
| GoTpl.Compiler.Visit | gotpl/compiler.go:334-364 | the compilation succeeds exactly when the visit does; then `"bytes"` is imported and the buffer is processBlock applied to the header, the true imports, `func <file>(<params>) string {`, the `_buffer` declaration and the flattened parts, followed by `return _buffer.String()` |

## Left out

- The template parser, the tree's `Parent` pointer and `Ast.hasNonExp` are not part of this model. The visitor passes down whether a node's parent is an expression node instead of the pointer. `hasNonExp` is an abstract function.
- `fmt.Sprintf("%#v", …)`, `Capitalize` and Go's import-only parser are abstract functions. No property of them is assumed.
- `filepath.Base`, `filepath.Dir` and `TMP_EXT` in `makeCompiler` are path library semantics. The constructor takes the directory name and the base name already computed.
- The options map is the set of its keys with a non-nil value, because the compiler only tests whether the value of a key is nil.
- `fmt.Println` and `os.Exit(1)` on a parse error, and a panic on a token under a program node, become a failed result. The state after a failure is not specified.
- The `default` panic of `getValStr` cannot happen in the model, because a child is either a token or a node.
- Go's map iteration order is unspecified. The listing of imports only promises which keys appear, each once, not their order.
- `Namespace` is a package variable in the source that the compiler never writes. It is a constant here.
- The commented-out `watchDir` is dead code about file watching and goroutines.
- Strings are sequences of Unicode code points. Go slices strings by bytes, but every slice the compiler takes is at an ASCII character, so both agree; text that is not valid UTF-8 is not modelled.
- GoTpl.Compiler.VisitAst: after a failed visit the contract says nothing about the fields, because the source has already stopped the program at that point. The same holds for GoTpl.Compiler.VisitFirstNode and GoTpl.Compiler.Visit.
- Imports.ListImports: the contract fixes which keys are listed but not their order, because Go's map order is unspecified.
