/** Import declarations found in the first control node, the layout convention
    that files them, and the listing of the import map into the generated header. */
module Imports {
  import opened Text
  import opened Wrappers

  /** One import declaration as Go's parser reports it: the optional local name and
      the path literal with its quotes, e.g. `"pkg/util"`. */
  datatype ImportSpec = ImportSpec(name: Option<string>, path: string)

  /** The text the compiler files: the path literal, preceded by the name and a space. */
  function ImportValue(s: ImportSpec): (v: string)
    ensures s.name.None? ==> v == s.path
    ensures s.name.Some? ==> v == s.name.value + " " + s.path
  {
    match s.name
    case None => s.path
    case Some(n) => n + " " + s.path
  }

  /** Where one import goes: a layout reference sets the layout and imports the layout's
      directory, anything else is imported as written. */
  datatype Filing = LayoutRef(layout: string, dirKey: string) | Plain(key: string)

  /** The last path segment of an import text. */
  function LastSegment(v: string): string {
    var pieces := Split(v, '/');
    pieces[|pieces| - 1]
  }

  /** The classification rule of visitFirstNode. */
  function Classify(v: string): (f: Filing)
    ensures f.LayoutRef? ==> '"' !in f.layout
    ensures f.LayoutRef? ==> HasSuffix(f.dirKey, "\"")
    ensures f.Plain? ==> f.key == v
  {
    var pieces := Split(v, '/');
    if |pieces| >= 2 && pieces[|pieces| - 2] == "layout" then
      LayoutRef(RemoveAll(v, '"'), Join(pieces[..|pieces| - 1], "/") + "\"")
    else
      Plain(v)
  }

  /** Splitting at one separator splits both sides. */
  lemma {:induction false} SplitConcat(x: string, y: string, c: char)
    ensures Split(x + [c] + y, c) == Split(x, c) + Split(y, c)
  {
    if x == [] {
      assert x + [c] + y == [c] + y;
      assert ([c] + y)[1..] == y;
    } else {
      assert (x + [c] + y)[0] == x[0];
      assert (x + [c] + y)[1..] == x[1..] + [c] + y;
      SplitConcat(x[1..], y, c);
    }
  }

  lemma {:induction false} SplitLayoutTail(a: string, b: string)
    requires '/' !in b
    ensures Split(a + "/layout/" + b, '/') == Split(a, '/') + ["layout", b]
  {
    assert a + "/layout/" + b == a + ['/'] + ("layout" + ['/'] + b);
    SplitConcat(a, "layout" + ['/'] + b, '/');
    SplitConcat("layout", b, '/');
    SplitNoSeparator("layout", '/');
    SplitNoSeparator(b, '/');
  }

  lemma {:induction false} JoinLayoutDir(a: string)
    ensures Join(Split(a, '/') + ["layout"], "/") == a + "/layout"
  {
    var front := Split(a, '/') + ["layout"];
    JoinSnoc(front, "/");
    assert front[..|front| - 1] == Split(a, '/');
    JoinSplit(a, '/');
  }

  /** An import `a/layout/b` (the last segment `b` without a slash) is a layout reference:
      the layout is the whole text without quotes and `a/layout` plus a closing quote is
      imported. */
  lemma {:induction false} LayoutImport(a: string, b: string)
    requires '/' !in b
    ensures Classify(a + "/layout/" + b) == LayoutRef(RemoveAll(a + "/layout/" + b, '"'), a + "/layout\"")
  {
    var pieces := Split(a + "/layout/" + b, '/');
    SplitLayoutTail(a, b);
    assert pieces[..|pieces| - 1] == Split(a, '/') + ["layout"];
    JoinLayoutDir(a);
  }

  /** An import `layout/b` (the last segment `b` without a slash) is a layout reference too:
      the layout is the text without quotes and the directory `layout` is imported. */
  lemma {:induction false} BareLayoutImport(b: string)
    requires '/' !in b
    ensures Classify("layout/" + b) == LayoutRef(RemoveAll("layout/" + b, '"'), "layout\"")
  {
    assert "layout/" + b == "layout" + ['/'] + b;
    SplitConcat("layout", b, '/');
    SplitNoSeparator("layout", '/');
    SplitNoSeparator(b, '/');
  }

  /** Pieces whose last one is `layout`, joined with slashes, end with `/layout`. */
  lemma {:induction false} JoinLayoutSuffix(ps: seq<string>)
    requires |ps| >= 2 && ps[|ps| - 1] == "layout"
    ensures HasSuffix(Join(ps, "/"), "/layout")
  {
    JoinSnoc(ps, "/");
    var e := Join(ps[..|ps| - 1], "/");
    assert Join(ps, "/") == e + "/layout";
  }

  /** Conversely, a layout reference is the directory key without its quote, a slash and a
      last segment without a slash, and that directory is `layout` or ends with `/layout`:
      with LayoutImport and BareLayoutImport, an import is a layout reference exactly when
      its next-to-last segment is `layout`. */
  lemma {:induction false} LayoutKeyIsParent(v: string)
    requires Classify(v).LayoutRef?
    ensures var k := Classify(v).dirKey;
      v == k[..|k| - 1] + "/" + LastSegment(v) && '/' !in LastSegment(v)
      && (k[..|k| - 1] == "layout" || HasSuffix(k[..|k| - 1], "/layout"))
  {
    var pieces := Split(v, '/');
    var n := |pieces|;
    var k := Classify(v).dirKey;
    JoinSplit(v, '/');
    JoinSnoc(pieces, "/");
    var d := Join(pieces[..n - 1], "/");
    assert k[..|k| - 1] == d;
    if n > 2 {
      JoinLayoutSuffix(pieces[..n - 1]);
    } else {
      assert pieces[..n - 1] == ["layout"];
    }
  }

  /** Removing the quotes of a quoted literal gives its contents. */
  lemma {:induction false} Unquote(x: string)
    requires '"' !in x
    ensures RemoveAll("\"" + x + "\"", '"') == x
  {
    RemoveAllAppend("\"" + x, "\"", '"');
    RemoveAllAppend("\"", x, '"');
    RemoveAllAbsent(x, '"');
  }

  /** The quoted form, as Go's parser reports a path: `"p/layout/b"` sets the layout to
      `p/layout/b` and imports `"p/layout"` (so `"pkg/layout/base"` gives layout
      `pkg/layout/base` and import `"pkg/layout"`). */
  lemma {:induction false} QuotedLayoutImport(p: string, b: string)
    requires '/' !in b && '"' !in p && '"' !in b
    ensures Classify("\"" + p + "/layout/" + b + "\"") == LayoutRef(p + "/layout/" + b, "\"" + p + "/layout\"")
  {
    var v := "\"" + p + "/layout/" + b + "\"";
    assert v == ("\"" + p) + "/layout/" + (b + "\"");
    LayoutImport("\"" + p, b + "\"");
    assert v == "\"" + (p + "/layout/" + b) + "\"";
    Unquote(p + "/layout/" + b);
  }

  /** An import of two segments is filed as written unless the first one is `layout`. */
  lemma {:induction false} TwoSegments(x: string, y: string)
    requires '/' !in x && '/' !in y && x != "layout"
    ensures Classify(x + "/" + y) == Plain(x + "/" + y)
  {
    SplitConcat(x, y, '/');
    SplitNoSeparator(x, '/');
    SplitNoSeparator(y, '/');
  }

  /** A plain import such as `"pkg/util"` is filed as written. */
  lemma PlainExample()
    ensures Classify("\"pkg/util\"") == Plain("\"pkg/util\"")
  {
    var x, y := "\"pkg", "util\"";
    assert |x| != |"layout"|;
    assert '/' !in x && '/' !in y;
    TwoSegments(x, y);
    assert x + "/" + y == "\"pkg/util\"";
  }

  /** `order` lists, each once, exactly the keys that `m` maps to true. */
  ghost predicate Listing(order: seq<string>, m: map<string, bool>) {
    (forall i, j :: 0 <= i < j < |order| ==> order[i] != order[j])
    && (forall k :: k in order <==> k in m && m[k])
  }

  /** The loop over the import map that writes each key mapped to true on a line of its own,
      in Go's unspecified map order (here an arbitrary choice at each step). */
  method ListImports(m: map<string, bool>) returns (lines: string)
    ensures exists order :: Listing(order, m) && lines == Unlines(order)
  {
    var todo := m.Keys;
    ghost var order: seq<string> := [];
    lines := "";
    while todo != {}
      invariant todo <= m.Keys
      invariant forall i, j :: 0 <= i < j < |order| ==> order[i] != order[j]
      invariant forall k :: k in order <==> k in m && k !in todo && m[k]
      invariant lines == Unlines(order)
      decreases todo
    {
      var k :| k in todo;
      if m[k] {
        UnlinesAppend(order, [k]);
        lines := lines + k + "\n";
        order := order + [k];
      }
      todo := todo - {k};
    }
    assert Listing(order, m);
  }
}
