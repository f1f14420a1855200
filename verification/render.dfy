/** The `render` template tag: renders one object with its component
    template, or a list of objects as a `<ul>` or `<table>` of rendered items.
    Template lookup is an abstract engine; variable resolution is an abstract
    lookup. */
module Render {
  import opened Wrappers
  import opened Text
  import opened ParseArgs

  /** A template value: Python's `None`, an object of some class, or an
      object whose class defines `__len__`, with its items in iteration order. */
  datatype Value = Nothing | Obj(cls: String) | Sized(cls: String, items: seq<Value>)

  /** A value is rendered as a list when it has a length and is not a dict. */
  predicate IsList(v: Value) {
    v.Sized? && v.cls != "dict"
  }

  /** The context handed to a template: `{'object': ...}` for one object,
      `{'objects': ..., 'template_name': ...}` for a list template. */
  datatype Ctx = ObjectCtx(obj: Value) | ListCtx(objects: Value, templateName: Option<String>)

  /** `render_to_string`: the rendered text, or `None` for TemplateDoesNotExist. */
  type Engine = (String, Ctx) -> Option<String>

  const BasePath: String := "components"

  /* ---------------------------------------------------------------------
     Template paths
     --------------------------------------------------------------------- */

  /** The default template of a class: `components/<class>[_<postfix>].html`, lower-cased. */
  function DefaultPath(cls: String, postfix: Option<String>): (p: String)
    ensures |p| >= |BasePath| + 6
    ensures p[..|BasePath| + 1] == BasePath + "/"
    ensures p[|p| - 5..] == ".html"
    ensures forall i :: 0 <= i < |p| ==> !IsUpperChar(p[i])
  {
    LowerHasNoUpper(cls);
    var stem := BasePath + "/" + Lower(cls);
    match postfix
    case None => stem + ".html"
    case Some(x) =>
      LowerHasNoUpper(x);
      stem + "_" + Lower(x) + ".html"
  }

  /** Without a postfix the default path names the lower-cased class. */
  lemma DefaultPathNamesClass(cls: String)
    ensures var p := DefaultPath(cls, None); p[|BasePath| + 1..|p| - 5] == Lower(cls)
  {
    var p := DefaultPath(cls, None);
    assert p == (BasePath + "/") + Lower(cls) + ".html";
  }

  /** Class names that differ only in case share a default template, and for
      a class name without `_` the path determines the class (up to case) and
      the postfix. */
  lemma DefaultPathInjective(a: String, pa: Option<String>, b: String, pb: Option<String>)
    requires '_' !in a && '_' !in b
    ensures DefaultPath(a, pa) == DefaultPath(b, pb) <==>
      Lower(a) == Lower(b) && (pa.None? <==> pb.None?) && (pa.Some? ==> Lower(pa.value) == Lower(pb.value))
  {
    LowerKeepsUnderscore(a);
    LowerKeepsUnderscore(b);
    var n := |BasePath| + 1;
    var p := DefaultPath(a, pa);
    var q := DefaultPath(b, pb);
    var la, lb := Lower(a), Lower(b);
    var ta: String := if pa.Some? then "_" + Lower(pa.value) else "";
    var tb: String := if pb.Some? then "_" + Lower(pb.value) else "";
    assert p == (BasePath + "/") + (la + ta) + ".html";
    assert q == (BasePath + "/") + (lb + tb) + ".html";
    if p == q {
      assert p[n..|p| - 5] == la + ta;
      assert q[n..|q| - 5] == lb + tb;
      SplitAtUnderscore(la, ta, lb, tb);
      if pa.Some? && pb.Some? {
        assert Lower(pa.value) == ta[1..] && Lower(pb.value) == tb[1..];
      }
    }
  }

  /** Lowering never creates or removes an underscore. */
  lemma LowerKeepsUnderscore(s: String)
    ensures '_' in Lower(s) <==> '_' in s
  {
    if '_' in s {
      var i :| 0 <= i < |s| && s[i] == '_';
      assert Lower(s)[i] == '_';
    }
    if '_' in Lower(s) {
      var i :| 0 <= i < |s| && Lower(s)[i] == '_';
      assert s[i] == '_';
    }
  }

  /** The number of characters before the first `_`. */
  function StemLength(s: String): (n: nat)
    ensures n <= |s|
  {
    if |s| == 0 || s[0] == '_' then 0 else 1 + StemLength(s[1..])
  }

  /** An underscore-free stem followed by an optional `_`-led tail: the stem
      is exactly what precedes the first `_`. */
  lemma {:induction false} StemOf(a: String, t: String)
    requires '_' !in a
    requires t == [] || t[0] == '_'
    ensures StemLength(a + t) == |a|
    decreases |a|
  {
    if |a| == 0 {
      assert a + t == t;
    } else {
      assert (a + t)[1..] == a[1..] + t;
      StemOf(a[1..], t);
    }
  }

  /** An underscore-free stem followed by an optional `_`-led tail splits uniquely. */
  lemma SplitAtUnderscore(a: String, ta: String, b: String, tb: String)
    requires '_' !in a && '_' !in b
    requires ta == [] || ta[0] == '_'
    requires tb == [] || tb[0] == '_'
    requires a + ta == b + tb
    ensures a == b && ta == tb
  {
    StemOf(a, ta);
    StemOf(b, tb);
    assert a == (a + ta)[..|a|];
    assert b == (b + tb)[..|b|];
    assert ta == (a + ta)[|a|..];
    assert tb == (b + tb)[|b|..];
  }

  /** The text that replaces a missing template. */
  function ErrorText(path: String): (r: String)
    ensures |r| == |path| + 26
  {
    "[err: template " + path + " not found]"
  }

  /** The error text names the missing template: distinct paths give distinct texts. */
  lemma ErrorTextNamesPath(p: String, q: String)
    ensures ErrorText(p) == ErrorText(q) <==> p == q
  {
    if ErrorText(p) == ErrorText(q) {
      assert p == ErrorText(p)[15..|ErrorText(p)| - 11];
      assert q == ErrorText(q)[15..|ErrorText(q)| - 11];
    }
  }

  /** `render_to_string`, with TemplateDoesNotExist turned into the error text. */
  function Emit(engine: Engine, path: String, ctx: Ctx): (r: String)
    ensures engine(path, ctx).Some? ==> r == engine(path, ctx).value
    ensures engine(path, ctx).None? ==> r == ErrorText(path)
  {
    match engine(path, ctx)
    case Some(out) => out
    case None => ErrorText(path)
  }

  /* ---------------------------------------------------------------------
     List wrapping
     --------------------------------------------------------------------- */

  /** An item's output counts as a table cell when, after its leading
      whitespace, its first three characters read `<TD` in any case. */
  predicate IsTableCell(t: String) {
    var l := LStrip(t);
    Upper(l[..if |l| < 3 then |l| else 3]) == "<TD"
  }

  /** Each text wrapped in `open`/`close`, concatenated in order. */
  function Rows(ts: seq<String>, open: String, close: String): (r: String)
    ensures |ts| == 0 ==> r == []
  {
    if |ts| == 0 then []
    else Rows(ts[..|ts| - 1], open, close) + open + ts[|ts| - 1] + close
  }

  /** Whether the list becomes a table: decided by the first item alone. */
  predicate TableMode(ts: seq<String>) {
    |ts| > 0 && IsTableCell(ts[0])
  }

  /** The list markup around the rendered items. */
  function WrapItems(ts: seq<String>): String {
    if TableMode(ts) then "<table>" + Rows(ts, "<tr>", "</tr>") + "</table>"
    else "<ul>" + Rows(ts, "<li>", "</li>") + "</ul>"
  }

  /** The loop of `renderhelper` over the rendered items, with its
      `hasDetected`/`isTable` flags. */
  method WrapLoop(ts: seq<String>) returns (output: String)
    ensures output == WrapItems(ts)
  {
    output := "";
    var isTable := false;
    var hasDetected := false;
    var i := 0;
    while i < |ts|
      invariant 0 <= i <= |ts|
      invariant hasDetected <==> i > 0
      invariant hasDetected ==> (isTable <==> TableMode(ts))
      invariant !hasDetected ==> !isTable
      invariant output == if isTable then Rows(ts[..i], "<tr>", "</tr>") else Rows(ts[..i], "<li>", "</li>")
    {
      var t := ts[i];
      if !hasDetected {
        var l := LStrip(t);
        if Upper(l[..if |l| < 3 then |l| else 3]) == "<TD" {
          isTable := true;
        }
        hasDetected := true;
      }
      assert ts[..i + 1][..i] == ts[..i];
      if isTable {
        output := output + "<tr>" + t + "</tr>";
      } else {
        output := output + "<li>" + t + "</li>";
      }
      i := i + 1;
    }
    assert ts[..i] == ts;
    if isTable {
      output := "<table>" + output + "</table>";
    } else {
      output := "<ul>" + output + "</ul>";
    }
  }

  /** The table test, character by character: after leading whitespace the
      item starts with `<`, then `t` or `T`, then `d` or `D`. */
  lemma TableCellChars(t: String)
    ensures IsTableCell(t) <==>
      var l := LStrip(t);
      |l| >= 3 && l[0] == '<' && (l[1] == 't' || l[1] == 'T') && (l[2] == 'd' || l[2] == 'D')
  {
    var l := LStrip(t);
    var h := l[..if |l| < 3 then |l| else 3];
    if |h| == 3 {
      assert Upper(h) == [UpperChar(h[0]), UpperChar(h[1]), UpperChar(h[2])];
    }
  }

  /** Wrapping distributes over concatenation of item runs. */
  lemma {:induction false} RowsAppend(a: seq<String>, b: seq<String>, open: String, close: String)
    ensures Rows(a + b, open, close) == Rows(a, open, close) + Rows(b, open, close)
    decreases |b|
  {
    if |b| == 0 {
      assert a + b == a;
    } else {
      var n := |b| - 1;
      assert (a + b)[..|a + b| - 1] == a + b[..n];
      RowsAppend(a, b[..n], open, close);
    }
  }

  /** Item `k` appears, wrapped, between the rows before it and the rows after it. */
  lemma RowsAt(ts: seq<String>, k: int, open: String, close: String)
    requires 0 <= k < |ts|
    ensures Rows(ts, open, close) == Rows(ts[..k], open, close) + open + ts[k] + close + Rows(ts[k + 1..], open, close)
  {
    assert ts == ts[..k] + [ts[k]] + ts[k + 1..];
    RowsAppend(ts[..k] + [ts[k]], ts[k + 1..], open, close);
    RowsAppend(ts[..k], [ts[k]], open, close);
    assert Rows([ts[k]], open, close) == open + ts[k] + close by {
      assert [ts[k]][..0] == [];
    }
  }

  /** Regrouping the concatenation of a wrapped run split around one item. */
  lemma Regroup(lo: String, rows: String, lc: String, pre: String, open: String, t: String, close: String, post: String)
    requires rows == pre + open + t + close + post
    ensures lo + rows + lc == lo + pre + open + t + close + post + lc
  {
  }

  /** An empty list renders as `<ul></ul>`; otherwise the output is a table
      exactly when the first item's output looks like a table cell, and item
      `k` sits in its own row or list entry, after the wrapped items before it
      and before the wrapped items after it. */
  lemma WrapItemsShape(ts: seq<String>, k: int)
    requires 0 <= k < |ts|
    ensures WrapItems([]) == "<ul></ul>"
    ensures TableMode(ts) ==> (WrapItems(ts) ==
      "<table>" + Rows(ts[..k], "<tr>", "</tr>") + "<tr>" + ts[k] + "</tr>" + Rows(ts[k + 1..], "<tr>", "</tr>") + "</table>")
    ensures !TableMode(ts) ==> (WrapItems(ts) ==
      "<ul>" + Rows(ts[..k], "<li>", "</li>") + "<li>" + ts[k] + "</li>" + Rows(ts[k + 1..], "<li>", "</li>") + "</ul>")
  {
    if TableMode(ts) {
      RowsAt(ts, k, "<tr>", "</tr>");
      Regroup("<table>", Rows(ts, "<tr>", "</tr>"), "</table>",
              Rows(ts[..k], "<tr>", "</tr>"), "<tr>", ts[k], "</tr>", Rows(ts[k + 1..], "<tr>", "</tr>"));
    } else {
      RowsAt(ts, k, "<li>", "</li>");
      Regroup("<ul>", Rows(ts, "<li>", "</li>"), "</ul>",
              Rows(ts[..k], "<li>", "</li>"), "<li>", ts[k], "</li>", Rows(ts[k + 1..], "<li>", "</li>"));
    }
  }

  /* ---------------------------------------------------------------------
     renderhelper
     --------------------------------------------------------------------- */

  /** `renderhelper(object, templatepath, listtemplate, template_postfix)`. */
  function RenderValue(v: Value, path: Option<String>, listTemplate: Option<String>,
                       postfix: Option<String>, engine: Engine): (r: String)
    decreases v
  {
    if v.Nothing? then ""
    else if IsList(v) then
      if listTemplate.None? then
        WrapItems(seq(|v.items|, i requires 0 <= i < |v.items| => RenderValue(v.items[i], path, None, postfix, engine)))
      else Emit(engine, listTemplate.value, ListCtx(v, path))
    else Emit(engine, path.GetOr(DefaultPath(v.cls, postfix)), ObjectCtx(v))
  }

  /** The rendered items of a list, each with the same path and postfix and no list template. */
  function RenderedItems(xs: seq<Value>, path: Option<String>, postfix: Option<String>, engine: Engine): (ts: seq<String>)
    ensures |ts| == |xs|
    ensures forall i :: 0 <= i < |xs| ==> ts[i] == RenderValue(xs[i], path, None, postfix, engine)
  {
    seq(|xs|, i requires 0 <= i < |xs| => RenderValue(xs[i], path, None, postfix, engine))
  }

  /** `None` renders as the empty string, whatever the templates. */
  lemma RenderNothing(path: Option<String>, listTemplate: Option<String>, postfix: Option<String>, engine: Engine)
    ensures RenderValue(Nothing, path, listTemplate, postfix, engine) == ""
  {
  }

  /** A single object (or a dict) is rendered by the explicit template if one
      is given and by its class's default template otherwise, with the object
      as `object`; a missing template gives the error text for that path. */
  lemma RenderObject(v: Value, path: Option<String>, listTemplate: Option<String>,
                     postfix: Option<String>, engine: Engine)
    requires v != Nothing && !IsList(v)
    ensures var p := if path.Some? then path.value else DefaultPath(v.cls, postfix);
      RenderValue(v, path, listTemplate, postfix, engine) ==
        if engine(p, ObjectCtx(v)).Some? then engine(p, ObjectCtx(v)).value else ErrorText(p)
  {
  }

  /** A list with a list template is rendered once by that template, which
      receives the list and the original path; the item templates are not consulted. */
  lemma RenderWithListTemplate(v: Value, path: Option<String>, lt: String,
                               postfix: Option<String>, engine: Engine)
    requires IsList(v)
    ensures RenderValue(v, path, Some(lt), postfix, engine) ==
      if engine(lt, ListCtx(v, path)).Some? then engine(lt, ListCtx(v, path)).value else ErrorText(lt)
  {
  }

  /** A list without a list template wraps its rendered items; the choice of
      markup follows the first item's output, and item `k`'s output appears
      wrapped between the wrapped outputs of the items before and after it. */
  lemma RenderListItem(v: Value, path: Option<String>, postfix: Option<String>, engine: Engine, k: int)
    requires IsList(v) && 0 <= k < |v.items|
    ensures var ts := RenderedItems(v.items, path, postfix, engine);
      var t := RenderValue(v.items[k], path, None, postfix, engine);
      var r := RenderValue(v, path, None, postfix, engine);
      (TableMode(ts) ==> (
        r == "<table>" + Rows(ts[..k], "<tr>", "</tr>") + "<tr>" + t + "</tr>" + Rows(ts[k + 1..], "<tr>", "</tr>") + "</table>")) &&
      (!TableMode(ts) ==> (
        r == "<ul>" + Rows(ts[..k], "<li>", "</li>") + "<li>" + t + "</li>" + Rows(ts[k + 1..], "<li>", "</li>") + "</ul>"))
  {
    var ts := RenderedItems(v.items, path, postfix, engine);
    var us := seq(|v.items|, i requires 0 <= i < |v.items| => RenderValue(v.items[i], path, None, postfix, engine));
    assert ts == us;
    assert RenderValue(v, path, None, postfix, engine) == WrapItems(ts);
    assert ts[k] == RenderValue(v.items[k], path, None, postfix, engine);
    WrapItemsShape(ts, k);
  }

  /** An empty list renders as `<ul></ul>` without consulting any template. */
  lemma RenderEmptyList(cls: String, path: Option<String>, postfix: Option<String>, engine: Engine)
    requires cls != "dict"
    ensures RenderValue(Sized(cls, []), path, None, postfix, engine) == "<ul></ul>"
  {
    assert RenderedItems([], path, postfix, engine) == [];
  }

  /* ---------------------------------------------------------------------
     The template node and its compile function
     --------------------------------------------------------------------- */

  /** `RenderObjectNode`. */
  datatype Node = Node(objectRef: String, templateName: Option<String>, asVar: Option<String>,
                       listTemplate: Option<String>, postfix: Option<String>)

  /** The template path a node asks for: none for a missing or empty name,
      else the name resolved as a variable, or the name itself when it does
      not resolve. */
  function NodePath(n: Node, resolveName: String -> Option<String>): (p: Option<String>)
    ensures p.None? <==> n.templateName.None? || n.templateName.value == ""
    ensures p.Some? && resolveName(n.templateName.value).None? ==> p == n.templateName
  {
    match n.templateName
    case None => None
    case Some(name) =>
      if name == "" then None
      else Some(resolveName(name).GetOr(name))
  }

  /** `RenderObjectNode.render`: an object reference that does not resolve renders as `None`. */
  function NodeRender(n: Node, lookup: String -> Option<Value>, resolveName: String -> Option<String>,
                      engine: Engine): (r: String)
    ensures lookup(n.objectRef).None? ==> r == ""
  {
    var obj := lookup(n.objectRef).GetOr(Nothing);
    RenderValue(obj, NodePath(n, resolveName), n.listTemplate, n.postfix, engine)
  }

  /** A node without a template name renders a single object with its
      class's default template, `templatetype` selecting the postfix. */
  lemma NodeDefaultTemplate(n: Node, lookup: String -> Option<Value>, resolveName: String -> Option<String>,
                            engine: Engine)
    requires n.templateName.None? || n.templateName.value == ""
    requires lookup(n.objectRef).Some? && lookup(n.objectRef).value != Nothing && !IsList(lookup(n.objectRef).value)
    ensures var v := lookup(n.objectRef).value;
      NodeRender(n, lookup, resolveName, engine) == Emit(engine, DefaultPath(v.cls, n.postfix), ObjectCtx(v))
  {
  }

  /** `kwargs.get(key)`. */
  function Get(kwargs: map<String, String>, key: String): (r: Option<String>)
    ensures r.Some? <==> key in kwargs
    ensures r.Some? ==> r.value == kwargs[key]
  {
    if key in kwargs then Some(kwargs[key]) else None
  }

  /** `do_render_object`: the tag name and at least one more token; the first
      positional argument names the object, `template`, `templatetype` and
      `listtemplate` select the templates. */
  function CompileRender(bits: seq<String>): (r: Result<Node, TagError>)
    requires |bits| >= 1
    ensures |bits| < 2 ==> r == Err(TooFewArguments(bits[0]))
    ensures r.Ok? ==> |bits| >= 2 && Parse(bits[1..]).Ok?
    ensures r.Ok? ==> var p := Parse(bits[1..]).value;
      |p.args| > 0 && r.value.objectRef == p.args[0] && r.value.asVar == p.asVar &&
      r.value.templateName == Get(p.kwargs, "template") &&
      r.value.postfix == Get(p.kwargs, "templatetype") &&
      r.value.listTemplate == Get(p.kwargs, "listtemplate")
  {
    if |bits| < 2 then Err(TooFewArguments(bits[0]))
    else
      match Parse(bits[1..])
      case Err(_) => Err(AsWithoutVariable)
      case Ok(p) =>
        if |p.args| == 0 then Err(NoPositionalArgument)
        else Ok(Node(p.args[0], Get(p.kwargs, "template"), p.asVar,
                     Get(p.kwargs, "listtemplate"), Get(p.kwargs, "templatetype")))
  }

  /** The tag fails exactly when it has no argument token, when `as` ends the
      tokens, or when no positional argument precedes `as`. */
  lemma CompileRenderErrors(bits: seq<String>)
    requires |bits| >= 1
    ensures CompileRender(bits).Err? <==>
      |bits| < 2 || Parse(bits[1..]).Err? || |Parse(bits[1..]).value.args| == 0
  {
  }
}
