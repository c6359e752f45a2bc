/** The fragment buffer: typed parts that `addPart` run-length merges and that
    `genPart` flattens into Go statements. */
module Fragments {
  import opened Text

  /** CMKP: literal markup, CNODE: a control statement, CSTAT: an expression statement. */
  datatype PartKind = CMKP | CNODE | CSTAT

  datatype Part = Part(kind: PartKind, value: string)

  /** No two neighbouring parts share a kind. */
  predicate Merged(ps: seq<Part>) {
    forall i :: 0 < i < |ps| ==> ps[i - 1].kind != ps[i].kind
  }

  /** addPart: a part of the same kind as the last one is merged into it,
      any other part is pushed. */
  function AddPart(ps: seq<Part>, p: Part): (r: seq<Part>)
    ensures |r| == |ps| <==> (|ps| > 0 && ps[|ps| - 1].kind == p.kind)
    ensures |r| == |ps| || |r| == |ps| + 1
    ensures |ps| > 0 ==> r[..|ps| - 1] == ps[..|ps| - 1]
    ensures |r| == |ps| + 1 ==> r[..|ps|] == ps && r[|ps|] == p
    ensures |r| == |ps| ==> r[|r| - 1] == Part(p.kind, ps[|ps| - 1].value + p.value)
  {
    if |ps| == 0 then [p]
    else
      var last := ps[|ps| - 1];
      if last.kind == p.kind then ps[|ps| - 1 := Part(last.kind, last.value + p.value)]
      else ps + [p]
  }

  /** Adding a part keeps the buffer merged. */
  lemma AddPartMerged(ps: seq<Part>, p: Part)
    requires Merged(ps)
    ensures Merged(AddPart(ps, p))
  {
  }

  /** The concatenation of all part values, in order. */
  function Flat(ps: seq<Part>): string {
    if ps == [] then "" else Flat(ps[..|ps| - 1]) + ps[|ps| - 1].value
  }

  /** The concatenation of the values of the parts of kind `k`, in order. */
  function KindText(ps: seq<Part>, k: PartKind): string {
    if ps == [] then ""
    else KindText(ps[..|ps| - 1], k) + (if ps[|ps| - 1].kind == k then ps[|ps| - 1].value else "")
  }

  /** Adding a part appends its value to the flattened text. */
  lemma AddPartFlat(ps: seq<Part>, p: Part)
    ensures Flat(AddPart(ps, p)) == Flat(ps) + p.value
  {
    var r := AddPart(ps, p);
    if |r| == |ps| {
      var n := |ps|;
      assert r[..n - 1] == ps[..n - 1];
      assert Flat(r) == Flat(ps[..n - 1]) + (ps[n - 1].value + p.value);
    } else {
      assert r[..|r| - 1] == ps;
    }
  }

  /** Adding a part appends its value to the text of its own kind and to no other. */
  lemma AddPartKindText(ps: seq<Part>, p: Part, k: PartKind)
    ensures KindText(AddPart(ps, p), k) == KindText(ps, k) + (if p.kind == k then p.value else "")
  {
    var r := AddPart(ps, p);
    if |r| == |ps| {
      var n := |ps|;
      assert r[..n - 1] == ps[..n - 1];
      if p.kind == k {
        assert KindText(r, k) == KindText(ps[..n - 1], k) + (ps[n - 1].value + p.value);
      } else {
        assert KindText(r, k) == KindText(ps[..n - 1], k);
      }
    } else {
      assert r[..|r| - 1] == ps;
    }
  }

  /** Two same-kind parts in a row leave the buffer as one part with the joined value would. */
  lemma AddPartSameKindTwice(ps: seq<Part>, k: PartKind, a: string, b: string)
    ensures AddPart(AddPart(ps, Part(k, a)), Part(k, b)) == AddPart(ps, Part(k, a + b))
  {
    var q := AddPart(ps, Part(k, a));
    var r := AddPart(q, Part(k, b));
    var t := AddPart(ps, Part(k, a + b));
    assert |r| == |q| == |t|;
    assert r[|r| - 1] == t[|t| - 1];
    assert r[..|r| - 1] == t[..|t| - 1];
    assert r == r[..|r| - 1] + [r[|r| - 1]];
    assert t == t[..|t| - 1] + [t[|t| - 1]];
  }

  /** The parts after a whole series of addPart calls. */
  function AddParts(ps: seq<Part>, qs: seq<Part>): seq<Part>
    decreases |qs|
  {
    if qs == [] then ps else AddParts(AddPart(ps, qs[0]), qs[1..])
  }

  function Values(qs: seq<Part>): string {
    if qs == [] then "" else qs[0].value + Values(qs[1..])
  }

  /** After any series of calls the buffer is still merged and its flattened text is
      the added values concatenated in call order. */
  lemma {:induction false} AddPartsFlat(ps: seq<Part>, qs: seq<Part>)
    requires Merged(ps)
    ensures Merged(AddParts(ps, qs))
    ensures Flat(AddParts(ps, qs)) == Flat(ps) + Values(qs)
    decreases |qs|
  {
    if qs != [] {
      AddPartMerged(ps, qs[0]);
      AddPartFlat(ps, qs[0]);
      AddPartsFlat(AddPart(ps, qs[0]), qs[1..]);
    }
  }

  /** What one part contributes to the flattened Go source (the loop body of genPart).
      `quote` is Go's `%#v` formatting of a string, which this model leaves abstract. */
  function Contribution(quote: string -> string, p: Part): (r: string)
    ensures p.kind == CNODE ==> r == p.value + "\n"
    ensures p.kind == CSTAT ==> r == p.value
    ensures p.kind == CMKP ==>
      r == (if TrimNewlines(p.value) == "" then ""
            else "_buffer.WriteString(" + quote(TrimNewlines(p.value)) + ")\n")
  {
    if p.kind == CMKP && p.value != "" then
      var v := TrimNewlines(p.value);
      if v != "" then "_buffer.WriteString(" + quote(v) + ")\n" else ""
    else if p.kind == CNODE then p.value + "\n"
    else p.value
  }

  /** genPart: the contributions of all parts, in order. */
  function GenText(quote: string -> string, ps: seq<Part>): string {
    if ps == [] then "" else GenText(quote, ps[..|ps| - 1]) + Contribution(quote, ps[|ps| - 1])
  }

  /** Adding a part at the back adds its contribution at the end. */
  lemma GenTextSnoc(quote: string -> string, ps: seq<Part>, p: Part)
    ensures GenText(quote, ps + [p]) == GenText(quote, ps) + Contribution(quote, p)
  {
    assert (ps + [p])[..|ps|] == ps;
  }

  /** The text of a buffer is the text of its front followed by the text of its back: each
      part contributes on its own, in buffer order. */
  lemma {:induction false} GenTextConcat(quote: string -> string, a: seq<Part>, b: seq<Part>)
    ensures GenText(quote, a + b) == GenText(quote, a) + GenText(quote, b)
    decreases |b|
  {
    if b == [] {
      assert a + b == a;
    } else {
      var front := b[..|b| - 1];
      var last := b[|b| - 1];
      assert b == front + [last];
      GenTextConcat(quote, a, front);
      assert a + b == (a + front) + [last];
      GenTextSnoc(quote, a + front, last);
      GenTextSnoc(quote, front, last);
      AppendAssoc(GenText(quote, a), GenText(quote, front), Contribution(quote, last));
    }
  }

  /** A markup part made only of newlines produces no statement at all. */
  lemma NewlinesOnlyMarkup(quote: string -> string, v: string)
    requires forall i :: 0 <= i < |v| ==> v[i] == '\n'
    ensures Contribution(quote, Part(CMKP, v)) == ""
  {
  }
}
