/** The statement text visitExp produces for one token of an expression node, with
    the HTML-escape decision. */
module Escaping {
  import opened Text

  /** The import path of the package that provides HTMLEscape (a variable in the
      source, never reassigned in the compiler; a constant here). */
  const Namespace := "\"github.com/codinl/gotpl/gotpl\""

  const EscapeOpen := "gotpl.HTMLEscape("
  const WriteOpen := "_buffer.WriteString("

  /** What visitExp reads from the compiler: whether the `htmlEscape` option is present,
      the template's directory name and the declared parameters. */
  datatype ExpConfig = ExpConfig(escapeOff: bool, dir: string, params: seq<string>)

  /** Some declared parameter starts with `val` followed by a space. */
  predicate DeclaresParam(params: seq<string>, val: string) {
    exists p :: p in params && HasPrefix(p, val + " ")
  }

  /** The switch on the value and the template's directory that decides whether the value
      is escaped. */
  function NeedsEscape(c: ExpConfig, val: string): bool {
    if val == "helper" || val == "html" || val == "raw" then false
    else if c.dir == "layout" then !DeclaresParam(c.params, val)
    else true
  }

  /** visitExp opens `gotpl.HTMLEscape(` for this token. */
  predicate OpensEscape(c: ExpConfig, val: string, idx: int, homo: bool, nested: bool) {
    !c.escapeOff && !nested && idx == 0 && homo && NeedsEscape(c, val)
  }

  /** The text visitExp adds, as a CSTAT part, for the token `val` at index `idx` of an
      expression node with `count` children; `nested` is "the node's parent is an
      expression node", `homo` is "the node has no non-expression child". */
  function ExpText(c: ExpConfig, val: string, idx: int, count: int, homo: bool, nested: bool): string {
    var start :=
      if !c.escapeOff && !nested && idx == 0 && homo then
        (if NeedsEscape(c, val) then EscapeOpen else "(")
      else "";
    var end := if !c.escapeOff && !nested && idx == count - 1 && homo then ")" else "";
    var start' := if !nested && idx == 0 then WriteOpen + start else start;
    var end' := if !nested && idx == count - 1 then end + ")\n" else end;
    start' + (if val == "raw" then "" else val) + end'
  }

  /** The escape wrapper is opened exactly when the option is absent, the node is not nested
      in an expression, the token is the first of a homogeneous group, the value is not one
      of `helper`, `html`, `raw`, and it is not a layout template declaring a parameter
      named by the value. */
  lemma OpensEscapeExactly(c: ExpConfig, val: string, idx: int, homo: bool, nested: bool)
    ensures OpensEscape(c, val, idx, homo, nested) <==>
      (!c.escapeOff && !nested && idx == 0 && homo
       && val != "helper" && val != "html" && val != "raw"
       && !(c.dir == "layout" && exists p :: p in c.params && HasPrefix(p, val + " ")))
  {
  }

  /** Inside an expression nested in another expression, a token contributes its own text
      and nothing else (`raw` contributes nothing). */
  lemma NestedIsTokenText(c: ExpConfig, val: string, idx: int, count: int, homo: bool)
    ensures ExpText(c, val, idx, count, homo, true) == (if val == "raw" then "" else val)
  {
  }

  /** An expression whose only child is the token `val` writes it, escaped or grouped. */
  lemma SingleTokenStatement(c: ExpConfig, val: string)
    ensures var body := if val == "raw" then "" else val;
      ExpText(c, val, 0, 1, true, false) ==
        if c.escapeOff then WriteOpen + body + ")\n"
        else if OpensEscape(c, val, 0, true, false) then WriteOpen + EscapeOpen + body + "))\n"
        else WriteOpen + "(" + body + "))\n"
  {
  }

  /** The bypass keywords never get the escape wrapper. */
  lemma BypassKeywords(c: ExpConfig, val: string, idx: int, count: int, homo: bool, nested: bool)
    requires val == "helper" || val == "html" || val == "raw"
    ensures !OpensEscape(c, val, idx, homo, nested)
  {
  }

  /** The lines 171-176 loop: does some parameter start with `val + " "`? */
  method ScanParams(params: seq<string>, val: string) returns (found: bool)
    ensures found == DeclaresParam(params, val)
  {
    found := false;
    var i := 0;
    while i < |params|
      invariant 0 <= i <= |params|
      invariant !found ==> forall j :: 0 <= j < i ==> !HasPrefix(params[j], val + " ")
      invariant found ==> DeclaresParam(params, val)
    {
      if HasPrefix(params[i], val + " ") {
        found := true;
        break;
      }
      i := i + 1;
    }
  }

  /** The texts of the first `k` tokens of an expression node whose children are the
      tokens `vals`. */
  function GroupText(c: ExpConfig, vals: seq<string>, k: nat, homo: bool, nested: bool): string
    requires k <= |vals|
  {
    if k == 0 then ""
    else GroupText(c, vals, k - 1, homo, nested) + ExpText(c, vals[k - 1], k - 1, |vals|, homo, nested)
  }

  /** What a token writes of itself: its value, or nothing for `raw`. */
  function Body(val: string): string {
    if val == "raw" then "" else val
  }

  /** The wrapper a top-level token opens in a homogeneous group with escaping on: the
      escape call or a plain parenthesis; nothing otherwise. */
  function OpenText(c: ExpConfig, val: string, homo: bool): string {
    if homo && !c.escapeOff then (if NeedsEscape(c, val) then EscapeOpen else "(") else ""
  }

  /** The parenthesis that closes that wrapper. */
  function CloseText(c: ExpConfig, homo: bool): string {
    if homo && !c.escapeOff then ")" else ""
  }

  /** The token values written one after the other (`raw` dropped). */
  function Bodies(vals: seq<string>): string {
    if vals == [] then "" else Bodies(vals[..|vals| - 1]) + Body(vals[|vals| - 1])
  }

  /** At the top level, for every option, group kind and index: the first token opens the
      write call and the wrapper, every token writes its value, and the last one closes the
      wrapper and the write call. */
  lemma TopLevelToken(c: ExpConfig, val: string, idx: int, count: int, homo: bool)
    ensures ExpText(c, val, idx, count, homo, false)
         == (if idx == 0 then WriteOpen + OpenText(c, val, homo) else "")
          + Body(val)
          + (if idx == count - 1 then CloseText(c, homo) + ")\n" else "")
    ensures idx == 0 ==> HasPrefix(ExpText(c, val, idx, count, homo, false), WriteOpen)
    ensures idx == count - 1 ==> HasSuffix(ExpText(c, val, idx, count, homo, false), ")\n")
  {
    var t := ExpText(c, val, idx, count, homo, false);
    var o := if idx == 0 then WriteOpen + OpenText(c, val, homo) else "";
    var e := if idx == count - 1 then CloseText(c, homo) + ")\n" else "";
    assert t == o + Body(val) + e;
    if idx == 0 {
      AppendAssoc(WriteOpen, OpenText(c, val, homo), Body(val) + e);
      assert t == WriteOpen + (OpenText(c, val, homo) + Body(val) + e);
    }
    if idx == count - 1 {
      AppendAssoc(o + Body(val), CloseText(c, homo), ")\n");
      assert t == (o + Body(val) + CloseText(c, homo)) + ")\n";
    }
  }

  /** The first token of a top-level group of tokens. */
  lemma {:induction false} GroupFirst(c: ExpConfig, vals: seq<string>, homo: bool)
    requires 1 <= |vals|
    ensures GroupText(c, vals, 1, homo, false) ==
        WriteOpen + OpenText(c, vals[0], homo) + Bodies(vals[..1])
        + (if |vals| == 1 then CloseText(c, homo) + ")\n" else "")
  {
    TopLevelToken(c, vals[0], 0, |vals|, homo);
    assert vals[..1] == [vals[0]];
    assert Bodies(vals[..1]) == Body(vals[0]) by {
      assert vals[..1][..0] == [];
    }
    assert GroupText(c, vals, 1, homo, false) == ExpText(c, vals[0], 0, |vals|, homo, false);
  }

  /** One more token of a top-level group of tokens, given the statement so far. */
  lemma {:induction false} GroupNext(c: ExpConfig, vals: seq<string>, k: nat, homo: bool)
    requires 2 <= k <= |vals|
    requires GroupText(c, vals, k - 1, homo, false) == WriteOpen + OpenText(c, vals[0], homo) + Bodies(vals[..k - 1])
    ensures GroupText(c, vals, k, homo, false) ==
        WriteOpen + OpenText(c, vals[0], homo) + Bodies(vals[..k])
        + (if k == |vals| then CloseText(c, homo) + ")\n" else "")
  {
    var pre := WriteOpen + OpenText(c, vals[0], homo);
    var tail := if k == |vals| then CloseText(c, homo) + ")\n" else "";
    var b := Body(vals[k - 1]);
    var bs := Bodies(vals[..k - 1]);
    TopLevelToken(c, vals[k - 1], k - 1, |vals|, homo);
    assert vals[..k][..k - 1] == vals[..k - 1];
    AppendStep(GroupText(c, vals, k, homo, false), GroupText(c, vals, k - 1, homo, false),
      ExpText(c, vals[k - 1], k - 1, |vals|, homo, false), pre, bs, b, tail);
  }

  /** The concatenation step of GroupNext, on plain strings. */
  lemma AppendStep(g: string, g1: string, e: string, pre: string, bs: string, b: string, tail: string)
    requires g == g1 + e && e == "" + b + tail && g1 == pre + bs
    ensures g == pre + (bs + b) + tail
  {
    AppendAssoc(pre, bs, b);
    AppendAssoc(pre + bs, b, tail);
  }

  /** A top-level expression of tokens only becomes one statement, whatever the options and
      the group kind: the write call, the wrapper chosen by the first token, the token values
      in order, and the closing of the wrapper and of the call. */
  lemma {:induction false} GroupStatement(c: ExpConfig, vals: seq<string>, k: nat, homo: bool)
    requires 1 <= k <= |vals|
    ensures GroupText(c, vals, k, homo, false) ==
        WriteOpen + OpenText(c, vals[0], homo) + Bodies(vals[..k])
        + (if k == |vals| then CloseText(c, homo) + ")\n" else "")
  {
    if k == 1 {
      GroupFirst(c, vals, homo);
    } else {
      GroupStatement(c, vals, k - 1, homo);
      GroupNext(c, vals, k, homo);
    }
  }

}
