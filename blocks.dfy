/** processBlock: the line pass over the generated body that unwraps `block … {`
    regions. The header of a region becomes an empty line and the line that closes
    the region is dropped; every other line is kept, trimmed. */
module Blocks {
  import opened Text

  predicate IsBlockHeader(l: string) {
    HasPrefix(l, "block") && HasSuffix(l, "{")
  }

  /** The scope after a line inside a region (scope > 0) that is not a header. */
  function Inner(scope: nat, l: string): nat
    requires scope > 0
  {
    if HasSuffix(l, "{") then scope + 1 else if HasSuffix(l, "}") then scope - 1 else scope
  }

  /** The lines processBlock writes for the (already trimmed) lines `ls` when it starts
      at `scope`. */
  function BlockKept(scope: nat, ls: seq<string>): seq<string>
    decreases |ls|
  {
    if ls == [] then []
    else
      var l := ls[0];
      if IsBlockHeader(l) then [""] + BlockKept(1, ls[1..])
      else if scope > 0 then
        var sc := Inner(scope, l);
        if sc == 0 then BlockKept(0, ls[1..]) else [l] + BlockKept(sc, ls[1..])
      else [l] + BlockKept(0, ls[1..])
  }

  /** The depth after the line `l` at depth `scope`. */
  function BlockNext(scope: nat, l: string): nat {
    if IsBlockHeader(l) then 1 else if scope > 0 then Inner(scope, l) else 0
  }

  /** The lines written for `l` at depth `scope`: none for the line that closes a region. */
  function BlockWritten(scope: nat, l: string): seq<string> {
    if IsBlockHeader(l) then [""] else if scope > 0 && Inner(scope, l) == 0 then [] else [l]
  }

  /** One line of the scan. */
  lemma {:induction false} BlockStep(scope: nat, ls: seq<string>, i: nat)
    requires i < |ls|
    ensures BlockKept(scope, ls[i..]) == BlockWritten(scope, ls[i]) + BlockKept(BlockNext(scope, ls[i]), ls[i + 1..])
  {
    assert ls[i..][0] == ls[i] && ls[i..][1..] == ls[i + 1..];
  }

  /** The scan's invariant, carried over one line: what is written so far, followed by what
      the rest of the lines give from the current depth, is the whole output. */
  lemma {:induction false} BlockScanStep(ts: seq<string>, i: nat, scope: nat, out: string)
    requires i < |ts|
    requires Unlines(BlockKept(0, ts)) == out + Unlines(BlockKept(scope, ts[i..]))
    ensures Unlines(BlockKept(0, ts))
         == (out + Unlines(BlockWritten(scope, ts[i]))) + Unlines(BlockKept(BlockNext(scope, ts[i]), ts[i + 1..]))
  {
    BlockStep(scope, ts, i);
    var w := BlockWritten(scope, ts[i]);
    var rest := BlockKept(BlockNext(scope, ts[i]), ts[i + 1..]);
    UnlinesAppend(w, rest);
    AppendAssoc(out, Unlines(w), Unlines(rest));
  }

  /** The text processBlock leaves in `buf`: its lines are trimmed one by one as they are
      scanned. */
  function BlockText(buf: string): string {
    Unlines(BlockKept(0, TrimAll(Split(buf, '\n'))))
  }

  /** Each line as it would be written if kept: the header of a region as an empty line. */
  function Shown(ls: seq<string>): (r: seq<string>)
    ensures |r| == |ls|
    ensures forall i :: 0 <= i < |ls| ==> r[i] == (if IsBlockHeader(ls[i]) then "" else ls[i])
  {
    if ls == [] then [] else [if IsBlockHeader(ls[0]) then "" else ls[0]] + Shown(ls[1..])
  }

  /** `a` is `b` with some elements deleted, the rest in their order. */
  predicate IsSubsequence(a: seq<string>, b: seq<string>)
    decreases |b|
  {
    a == [] || (b != [] && ((a[0] == b[0] && IsSubsequence(a[1..], b[1..])) || IsSubsequence(a, b[1..])))
  }

  /** Every written line is an input line in its written form, in input order: the pass only
      drops lines, it never reorders or invents them. */
  lemma {:induction false} KeptInOrder(scope: nat, lines: seq<string>)
    ensures IsSubsequence(BlockKept(scope, lines), Shown(lines))
    decreases |lines|
  {
    if lines != [] {
      var l := lines[0];
      var sh := Shown(lines);
      assert sh[1..] == Shown(lines[1..]);
      if IsBlockHeader(l) {
        KeptInOrder(1, lines[1..]);
      } else if scope > 0 && Inner(scope, l) == 0 {
        KeptInOrder(0, lines[1..]);
      } else {
        KeptInOrder(if scope > 0 then Inner(scope, l) else 0, lines[1..]);
      }
    }
  }

  /** Every written line is trimmed (the header's empty line too). */
  lemma {:induction false} KeptTrimmed(scope: nat, ls: seq<string>)
    requires forall i :: 0 <= i < |ls| ==> IsTrimmed(ls[i])
    ensures forall i :: 0 <= i < |BlockKept(scope, ls)| ==> IsTrimmed(BlockKept(scope, ls)[i])
    decreases |ls|
  {
    if ls != [] {
      var l := ls[0];
      if IsBlockHeader(l) {
        KeptTrimmed(1, ls[1..]);
      } else if scope > 0 && Inner(scope, l) == 0 {
        KeptTrimmed(0, ls[1..]);
      } else {
        KeptTrimmed(if scope > 0 then Inner(scope, l) else 0, ls[1..]);
      }
    }
  }

  /** No line opens a region. */
  predicate NoBlockHeader(lines: seq<string>) {
    lines == [] || (!IsBlockHeader(lines[0]) && NoBlockHeader(lines[1..]))
  }

  /** A line that neither opens a region nor changes its depth: it ends with neither brace
      (a header always ends with `{`). */
  predicate Neutral(l: string) {
    !HasSuffix(l, "{") && !HasSuffix(l, "}")
  }

  /** Every line is neutral. */
  predicate AllNeutral(lines: seq<string>) {
    lines == [] || (Neutral(lines[0]) && AllNeutral(lines[1..]))
  }

  /** Outside any region, lines without a header pass through trimmed. */
  lemma {:induction false} OutsideRegion(lines: seq<string>, rest: seq<string>)
    requires NoBlockHeader(lines)
    ensures BlockKept(0, lines + rest) == lines + BlockKept(0, rest)
    decreases |lines|
  {
    if lines == [] {
      assert lines + rest == rest;
    } else {
      assert (lines + rest)[0] == lines[0];
      assert (lines + rest)[1..] == lines[1..] + rest;
      OutsideRegion(lines[1..], rest);
    }
  }

  /** Inside a region a neutral line is kept and leaves the depth alone. */
  lemma {:induction false} NeutralStep(scope: nat, l: string, rest: seq<string>)
    requires scope > 0
    requires Neutral(l)
    ensures BlockKept(scope, [l] + rest) == [l] + BlockKept(scope, rest)
  {
    assert ([l] + rest)[0] == l && ([l] + rest)[1..] == rest;
    assert !IsBlockHeader(l);
  }

  /** Inside a region, neutral lines are kept trimmed and leave the depth alone. */
  lemma {:induction false} InsideRegion(scope: nat, lines: seq<string>, rest: seq<string>)
    requires scope > 0
    requires AllNeutral(lines)
    ensures BlockKept(scope, lines + rest) == lines + BlockKept(scope, rest)
    decreases |lines|
  {
    if lines == [] {
      assert lines + rest == rest;
    } else {
      var tail := lines[1..] + rest;
      assert lines + rest == [lines[0]] + tail;
      NeutralStep(scope, lines[0], tail);
      InsideRegion(scope, lines[1..], rest);
      assert lines + BlockKept(scope, rest) == [lines[0]] + (lines[1..] + BlockKept(scope, rest));
    }
  }

  /** Starting at depth `scope`, the depth stays above 0 before and after every line of
      `ls`, counting each line by its trailing brace. */
  predicate Nested(scope: nat, ls: seq<string>)
    decreases |ls|
  {
    scope > 0 && (ls == [] || Nested(Inner(scope, ls[0]), ls[1..]))
  }

  /** The depth reached after the lines `ls`. */
  function DepthAfter(scope: nat, ls: seq<string>): (d: nat)
    requires Nested(scope, ls)
    ensures d > 0
    decreases |ls|
  {
    if ls == [] then scope else DepthAfter(Inner(scope, ls[0]), ls[1..])
  }

  /** Inside a region, header-free lines that never bring the depth to 0 are all kept, in
      order, nested braces included; the scan goes on at the depth they lead to. */
  lemma {:induction false} InsideNested(scope: nat, body: seq<string>, rest: seq<string>)
    requires NoBlockHeader(body)
    requires Nested(scope, body)
    ensures BlockKept(scope, body + rest) == body + BlockKept(DepthAfter(scope, body), rest)
    decreases |body|
  {
    if body == [] {
      assert body + rest == rest;
    } else {
      var l, tail := body[0], body[1..] + rest;
      assert (body + rest)[0] == l && (body + rest)[1..] == tail;
      InsideNested(Inner(scope, l), body[1..], rest);
      var after := BlockKept(DepthAfter(scope, body), rest);
      assert body + after == [l] + (body[1..] + after);
    }
  }

  /** A header opens a region at depth 1 and is written as an empty line, whatever the depth. */
  lemma {:induction false} HeaderStep(scope: nat, header: string, rest: seq<string>)
    requires IsBlockHeader(header)
    ensures BlockKept(scope, [header] + rest) == [""] + BlockKept(1, rest)
  {
    assert ([header] + rest)[0] == header && ([header] + rest)[1..] == rest;
  }

  /** At depth 1 a line ending with `}` closes the region and is dropped. */
  lemma {:induction false} CloserStep(closer: string, rest: seq<string>)
    requires HasSuffix(closer, "}")
    ensures BlockKept(1, [closer] + rest) == BlockKept(0, rest)
  {
    assert ([closer] + rest)[0] == closer && ([closer] + rest)[1..] == rest;
    assert !IsBlockHeader(closer);
  }

  /** A region at the top level, from its header on. */
  lemma {:induction false} RegionFromHeader(header: string, body: seq<string>, closer: string, post: seq<string>)
    requires IsBlockHeader(header)
    requires NoBlockHeader(body) && Nested(1, body) && DepthAfter(1, body) == 1
    requires HasSuffix(closer, "}")
    ensures BlockKept(0, [header] + (body + ([closer] + post))) == [""] + (body + BlockKept(0, post))
  {
    HeaderStep(0, header, body + ([closer] + post));
    InsideNested(1, body, [closer] + post);
    CloserStep(closer, post);
  }

  /** A region: its header becomes an empty line, its body is kept and the line that closes
      it is dropped; the lines before it pass through. The body may hold nested brace pairs:
      it is any header-free run of lines after which the depth is back at 1 and that never
      reaches 0 on the way. */
  lemma {:induction false} Region(pre: seq<string>, header: string, body: seq<string>, closer: string, post: seq<string>)
    requires NoBlockHeader(pre)
    requires IsBlockHeader(header)
    requires NoBlockHeader(body) && Nested(1, body) && DepthAfter(1, body) == 1
    requires HasSuffix(closer, "}")
    ensures BlockKept(0, pre + [header] + body + [closer] + post)
         == pre + [""] + body + BlockKept(0, post)
  {
    var x := [header] + (body + ([closer] + post));
    AppendAssoc(pre + [header] + body, [closer], post);
    AppendAssoc(pre + [header], body, [closer] + post);
    AppendAssoc(pre, [header], body + ([closer] + post));
    OutsideRegion(pre, x);
    RegionFromHeader(header, body, closer, post);
    AppendAssoc(pre + [""], body, BlockKept(0, post));
    AppendAssoc(pre, [""], body + BlockKept(0, post));
  }

  /** The lines of the example below, classified. */
  lemma ExampleLines()
    ensures IsBlockHeader("block x {")
    ensures NoBlockHeader(["REMOVED"]) && Nested(1, ["REMOVED"]) && DepthAfter(1, ["REMOVED"]) == 1
    ensures NoBlockHeader(["A"]) && NoBlockHeader(["B", ""])
  {
    var header := "block x {";
    assert header[..5] == "block" && header[|header| - 1..] == "{";
    assert "REMOVED"[6] == 'D';
    assert Inner(1, "REMOVED") == 1;
    assert ["REMOVED"][1..] == [];
    assert ["A"][1..] == [];
    assert ["B", ""][1..] == [""] && [""][1..] == [];
  }

  /** The lines of `A`, a region `block x {` holding `REMOVED`, its `}`, `B`, and the empty
      piece after the final newline. */
  lemma {:induction false} RegionExample()
    ensures BlockKept(0, ["A", "block x {", "REMOVED", "}", "B", ""]) == ["A", "", "REMOVED", "B", ""]
  {
    var pre, header, body, post: seq<string> := ["A"], "block x {", ["REMOVED"], ["B", ""];
    ExampleLines();
    Region(pre, header, body, "}", post);
    assert pre + [header] + body + ["}"] + post == ["A", "block x {", "REMOVED", "}", "B", ""];
    OutsideRegion(post, []);
    assert post + [] == post;
    assert pre + [""] + body + post == ["A", "", "REMOVED", "B", ""];
  }

}
