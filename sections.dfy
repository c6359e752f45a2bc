/** processSection: the line pass that lifts each `section Name {` region out of the
    body into its own function `func Name string` returning the region's text. */
module Sections {
  import opened Text
  import opened Blocks

  predicate IsSectionHeader(l: string) {
    HasPrefix(l, "section") && HasSuffix(l, "{")
  }

  /** The keyword and the brace of a header do not overlap, so a header is at least eight
      characters long and `l[7..|l| - 1]` is in bounds. */
  lemma {:induction false} HeaderLength(l: string)
    requires IsSectionHeader(l)
    ensures |l| >= 8 && l == "section" + l[7..|l| - 1] + "{"
  {
    assert l[..7] == "section";
    assert l[6] == l[..7][6] == 'n';
    assert l[|l| - 1..] == "{";
    assert l[|l| - 1] == l[|l| - 1..][0] == '{';
    assert l == l[..7] + l[7..|l| - 1] + l[|l| - 1..];
  }

  /** The name between the keyword and the brace, trimmed. */
  function SectionName(l: string): (name: string)
    requires IsSectionHeader(l)
    ensures IsTrimmed(name)
  {
    HeaderLength(l);
    TrimSpace(l[7..|l| - 1])
  }

  /** The function header written for a section. */
  function FuncHeader(capitalize: string -> string, l: string): string
    requires IsSectionHeader(l)
  {
    "\n func " + capitalize(SectionName(l)) + " string {\n"
  }

  /** What processSection appends to `out` for the (already trimmed) lines `ls`, starting at
      depth `scope` with the pending section text `secOut`. */
  function SectionOut(capitalize: string -> string, scope: nat, secOut: string, ls: seq<string>): string
    decreases |ls|
  {
    if ls == [] then ""
    else
      var l := ls[0];
      if IsSectionHeader(l) then
        FuncHeader(capitalize, l) + SectionOut(capitalize, 1, "return `\n", ls[1..])
      else if scope > 0 then
        var sc := Inner(scope, l);
        if sc == 0 then secOut + "`\n}\n" + SectionOut(capitalize, 0, "", ls[1..])
        else SectionOut(capitalize, sc, secOut + l + "\n", ls[1..])
      else SectionOut(capitalize, 0, secOut + l + "\n", ls[1..])
  }

  /** The depth after the line `l` at depth `scope`. */
  function SectionNext(scope: nat, l: string): nat {
    if IsSectionHeader(l) then 1 else if scope > 0 then Inner(scope, l) else 0
  }

  /** The text written to the output for `l`: a function header, or a finished section. */
  function SectionEmit(capitalize: string -> string, scope: nat, secOut: string, l: string): string {
    if IsSectionHeader(l) then FuncHeader(capitalize, l)
    else if scope > 0 && Inner(scope, l) == 0 then secOut + "`\n}\n"
    else ""
  }

  /** The pending section text after the line `l`. */
  function SectionPending(scope: nat, secOut: string, l: string): string {
    if IsSectionHeader(l) then "return `\n"
    else if scope > 0 && Inner(scope, l) == 0 then ""
    else secOut + l + "\n"
  }

  /** One line of the scan. */
  lemma {:induction false} SectionStep(capitalize: string -> string, scope: nat, secOut: string, ls: seq<string>, i: nat)
    requires i < |ls|
    ensures SectionOut(capitalize, scope, secOut, ls[i..])
         == SectionEmit(capitalize, scope, secOut, ls[i])
            + SectionOut(capitalize, SectionNext(scope, ls[i]), SectionPending(scope, secOut, ls[i]), ls[i + 1..])
  {
    assert ls[i..][0] == ls[i] && ls[i..][1..] == ls[i + 1..];
  }

  /** The scan's invariant, carried over one line. */
  lemma {:induction false} SectionScanStep(capitalize: string -> string, ts: seq<string>, i: nat, scope: nat, secOut: string, out: string)
    requires i < |ts|
    requires SectionOut(capitalize, 0, "", ts) == out + SectionOut(capitalize, scope, secOut, ts[i..])
    ensures SectionOut(capitalize, 0, "", ts)
         == (out + SectionEmit(capitalize, scope, secOut, ts[i]))
            + SectionOut(capitalize, SectionNext(scope, ts[i]), SectionPending(scope, secOut, ts[i]), ts[i + 1..])
  {
    SectionStep(capitalize, scope, secOut, ts, i);
  }

  /** The sections of `buf` as processSection writes them after the import header. */
  function SectionText(capitalize: string -> string, buf: string): string {
    SectionOut(capitalize, 0, "", TrimAll(Split(buf, '\n')))
  }

  /** No line opens a section. */
  predicate NoSectionHeader(ls: seq<string>) {
    ls == [] || (!IsSectionHeader(ls[0]) && NoSectionHeader(ls[1..]))
  }

  /** Outside a section the pending text is never written: a header replaces it before
      anything is output. */
  lemma {:induction false} TopLevelIgnored(capitalize: string -> string, a: string, b: string, ls: seq<string>)
    ensures SectionOut(capitalize, 0, a, ls) == SectionOut(capitalize, 0, b, ls)
    decreases |ls|
  {
    if ls != [] && !IsSectionHeader(ls[0]) {
      TopLevelIgnored(capitalize, a + ls[0] + "\n", b + ls[0] + "\n", ls[1..]);
    }
  }

  /** Top-level lines before a section never reach the output. */
  lemma {:induction false} TopLevelDiscarded(capitalize: string -> string, secOut: string, ls: seq<string>, rest: seq<string>)
    requires NoSectionHeader(ls)
    ensures SectionOut(capitalize, 0, secOut, ls + rest) == SectionOut(capitalize, 0, "", rest)
    decreases |ls|
  {
    if ls == [] {
      assert ls + rest == rest;
      TopLevelIgnored(capitalize, secOut, "", rest);
    } else {
      assert (ls + rest)[0] == ls[0] && (ls + rest)[1..] == ls[1..] + rest;
      TopLevelDiscarded(capitalize, secOut + ls[0] + "\n", ls[1..], rest);
    }
  }

  /** Without any section header the output is empty. */
  lemma {:induction false} NoSectionNoOutput(capitalize: string -> string, secOut: string, ls: seq<string>)
    requires NoSectionHeader(ls)
    ensures SectionOut(capitalize, 0, secOut, ls) == ""
    decreases |ls|
  {
    if ls != [] {
      NoSectionNoOutput(capitalize, secOut + ls[0] + "\n", ls[1..]);
    }
  }

  /** Inside a section a neutral line is added to the pending text. */
  lemma {:induction false} NeutralLine(capitalize: string -> string, scope: nat, secOut: string, l: string, rest: seq<string>)
    requires scope > 0
    requires Neutral(l)
    ensures SectionOut(capitalize, scope, secOut, [l] + rest) == SectionOut(capitalize, scope, secOut + l + "\n", rest)
  {
    assert ([l] + rest)[0] == l && ([l] + rest)[1..] == rest;
    assert !IsSectionHeader(l) && Inner(scope, l) == scope;
  }

  /** Inside a section, neutral lines are collected into the pending text, in order. */
  lemma {:induction false} SectionBody(capitalize: string -> string, scope: nat, secOut: string, body: seq<string>, rest: seq<string>)
    requires scope > 0
    requires AllNeutral(body)
    ensures SectionOut(capitalize, scope, secOut, body + rest)
         == SectionOut(capitalize, scope, secOut + Unlines(body), rest)
    decreases |body|
  {
    if body == [] {
      assert body + rest == rest;
      assert secOut + Unlines(body) == secOut;
    } else {
      var tail := body[1..] + rest;
      assert body + rest == [body[0]] + tail;
      NeutralLine(capitalize, scope, secOut, body[0], tail);
      SectionBody(capitalize, scope, secOut + body[0] + "\n", body[1..], rest);
      assert secOut + body[0] + "\n" + Unlines(body[1..]) == secOut + Unlines(body);
    }
  }

  /** Inside a section, header-free lines that never bring the depth to 0 are collected into
      the pending text in order, nested braces included, and nothing is written for them. */
  lemma {:induction false} SectionNested(capitalize: string -> string, scope: nat, secOut: string, body: seq<string>,
                                         rest: seq<string>)
    requires NoSectionHeader(body)
    requires Nested(scope, body)
    ensures SectionOut(capitalize, scope, secOut, body + rest)
         == SectionOut(capitalize, DepthAfter(scope, body), secOut + Unlines(body), rest)
    decreases |body|
  {
    if body == [] {
      assert body + rest == rest;
      assert secOut + Unlines(body) == secOut;
    } else {
      var l, tail := body[0], body[1..] + rest;
      assert (body + rest)[0] == l && (body + rest)[1..] == tail;
      SectionNested(capitalize, Inner(scope, l), secOut + l + "\n", body[1..], rest);
      assert secOut + l + "\n" + Unlines(body[1..]) == secOut + Unlines(body);
    }
  }

  lemma {:induction false} SectionHeaderStep(capitalize: string -> string, scope: nat, secOut: string, header: string, rest: seq<string>)
    requires IsSectionHeader(header)
    ensures SectionOut(capitalize, scope, secOut, [header] + rest)
         == FuncHeader(capitalize, header) + SectionOut(capitalize, 1, "return `\n", rest)
  {
    assert ([header] + rest)[0] == header && ([header] + rest)[1..] == rest;
  }

  lemma {:induction false} SectionCloseStep(capitalize: string -> string, secOut: string, closer: string, rest: seq<string>)
    requires HasSuffix(closer, "}")
    ensures SectionOut(capitalize, 1, secOut, [closer] + rest)
         == secOut + "`\n}\n" + SectionOut(capitalize, 0, "", rest)
  {
    assert ([closer] + rest)[0] == closer && ([closer] + rest)[1..] == rest;
    assert !IsSectionHeader(closer);
  }

  /** A section becomes a function returning its body as a raw string; the lines before it
      are dropped and the scan goes on with the lines after it. The body may hold nested
      brace pairs: it is any header-free run of lines after which the depth is back at 1 and
      that never reaches 0 on the way. */
  lemma {:induction false} Section(capitalize: string -> string, header: string, body: seq<string>, closer: string,
                post: seq<string>)
    requires IsSectionHeader(header)
    requires NoSectionHeader(body) && Nested(1, body) && DepthAfter(1, body) == 1
    requires HasSuffix(closer, "}")
    ensures SectionOut(capitalize, 0, "", [header] + body + [closer] + post)
         == FuncHeader(capitalize, header) + "return `\n" + Unlines(body) + "`\n}\n"
            + SectionOut(capitalize, 0, "", post)
  {
    var tail := [closer] + post;
    assert [header] + body + [closer] + post == [header] + (body + tail);
    SectionHeaderStep(capitalize, 0, "", header, body + tail);
    SectionNested(capitalize, 1, "return `\n", body, tail);
    SectionCloseStep(capitalize, "return `\n" + Unlines(body), closer, post);
  }

  /** A section that is never closed contributes its function header and nothing of its body,
      whatever braces the body holds, as long as its depth never returns to 0. */
  lemma {:induction false} UnclosedSection(capitalize: string -> string, secOut: string, header: string, body: seq<string>)
    requires IsSectionHeader(header)
    requires NoSectionHeader(body) && Nested(1, body)
    ensures SectionOut(capitalize, 0, secOut, [header] + body) == FuncHeader(capitalize, header)
  {
    assert body + [] == body;
    SectionHeaderStep(capitalize, 0, secOut, header, body);
    SectionNested(capitalize, 1, "return `\n", body, []);
  }
}
