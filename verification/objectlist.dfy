/** The `makeobjectlist` template tag: paginates a list and binds the current
    page's objects, the paginator and the page in the template context. */
module ObjectListTag {
  import opened Wrappers
  import opened Text
  import opened ParseArgs
  import opened PageParam

  const DefaultPerPage: int := 10
  const DefaultAsVar: String := "object_list"

  /** `MakeObjectListNode`. */
  datatype ListNode = ListNode(objectRef: String, asVar: Option<String>, paginateBy: int, filter: Option<String>)

  /** `MakeObjectListNode.__init__`: `int(paginate_by)`, or 10 when the
      argument is missing or does not parse. */
  function MakeNode(objectRef: String, asVar: Option<String>, paginateBy: Option<String>,
                    filter: Option<String>): (n: ListNode)
    ensures n.objectRef == objectRef && n.asVar == asVar && n.filter == filter
    ensures paginateBy.None? ==> n.paginateBy == DefaultPerPage
    ensures paginateBy.Some? && ParseInt(paginateBy.value).None? ==> n.paginateBy == DefaultPerPage
    ensures paginateBy.Some? && ParseInt(paginateBy.value).Some? ==> n.paginateBy == ParseInt(paginateBy.value).value
  {
    var perPage := match paginateBy
      case None => DefaultPerPage
      case Some(s) => ParseInt(s).GetOr(DefaultPerPage);
    ListNode(objectRef, asVar, perPage, filter)
  }

  /** A page size written in decimal is taken as is. */
  lemma PerPageRoundTrip(objectRef: String, n: nat)
    ensures MakeNode(objectRef, None, Some(Decimal(n)), None).paginateBy == n
  {
    ParseDecimal(n);
  }

  /** What the tag puts in the context. */
  datatype Binding = PageObjects(page: int) | ThePaginator(perPage: int) | ThePage(page: int)

  /** The context after the tag has rendered, and the tag's own output. */
  datatype Rendered = Rendered(output: String, context: map<String, Binding>)

  /** The context variable that receives the page's objects. */
  function AsVarName(n: ListNode): (name: String)
    ensures n.asVar.None? ==> name == DefaultAsVar
    ensures n.asVar.Some? ==> name == n.asVar.value
  {
    n.asVar.GetOr(DefaultAsVar)
  }

  /** `MakeObjectListNode.render`, for a paginator of `numPages` pages and
      the request's `page` parameter: the bindings are made in the source's
      order, so `paginator` and `page_obj` win over an `as` variable of the
      same name. */
  function RenderNode(n: ListNode, context: map<String, Binding>, raw: Option<String>, numPages: int): (r: Rendered)
    requires numPages >= 1
    ensures r.output == ""
    ensures "paginator" in r.context && "page_obj" in r.context && AsVarName(n) in r.context
    ensures r.context["paginator"] == ThePaginator(n.paginateBy)
    ensures r.context["page_obj"] == ThePage(ResolvePage(raw, numPages))
    ensures AsVarName(n) != "paginator" && AsVarName(n) != "page_obj" ==>
      r.context[AsVarName(n)] == PageObjects(ResolvePage(raw, numPages))
    ensures forall k :: k in context && k != AsVarName(n) && k != "paginator" && k != "page_obj" ==>
      k in r.context && r.context[k] == context[k]
  {
    var page := ResolvePage(raw, numPages);
    var ctx := context[AsVarName(n) := PageObjects(page)];
    var ctx := ctx["paginator" := ThePaginator(n.paginateBy)];
    var ctx := ctx["page_obj" := ThePage(page)];
    Rendered("", ctx)
  }

  /** The tag binds nothing but its three names. */
  lemma RenderNodeKeys(n: ListNode, context: map<String, Binding>, raw: Option<String>, numPages: int, r: Rendered)
    requires numPages >= 1
    requires r == RenderNode(n, context, raw, numPages)
    ensures r.context.Keys == context.Keys + {AsVarName(n), "paginator", "page_obj"}
  {
  }

  /** The page whose objects are bound is always one the paginator accepts. */
  lemma RenderNodeValidPage(n: ListNode, context: map<String, Binding>, raw: Option<String>, numPages: int)
    requires numPages >= 1
    requires AsVarName(n) != "paginator" && AsVarName(n) != "page_obj"
    ensures var c := RenderNode(n, context, raw, numPages).context;
      c[AsVarName(n)].PageObjects? && ValidPage(c[AsVarName(n)].page, numPages) &&
      c[AsVarName(n)].page == c["page_obj"].page
  {
  }

  /** `do_make_object_list`: the first positional argument names the list,
      `paginate_by` and `addtion_filter` are keyword arguments. */
  function CompileObjectList(bits: seq<String>): (r: Result<ListNode, TagError>)
    requires |bits| >= 1
    ensures |bits| < 2 ==> r == Err(TooFewArguments(bits[0]))
    ensures r.Ok? ==> |bits| >= 2 && Parse(bits[1..]).Ok?
    ensures r.Ok? ==> var p := Parse(bits[1..]).value;
      |p.args| > 0 && r.value.objectRef == p.args[0] && r.value.asVar == p.asVar &&
      r.value.filter == (if "addtion_filter" in p.kwargs then Some(p.kwargs["addtion_filter"]) else None) &&
      ("paginate_by" !in p.kwargs ==> r.value.paginateBy == DefaultPerPage) &&
      ("paginate_by" in p.kwargs ==> r.value.paginateBy == ParseInt(p.kwargs["paginate_by"]).GetOr(DefaultPerPage))
  {
    if |bits| < 2 then Err(TooFewArguments(bits[0]))
    else
      match Parse(bits[1..])
      case Err(_) => Err(AsWithoutVariable)
      case Ok(p) =>
        if |p.args| == 0 then Err(NoPositionalArgument)
        else
          var perPage := if "paginate_by" in p.kwargs then Some(p.kwargs["paginate_by"]) else None;
          var filter := if "addtion_filter" in p.kwargs then Some(p.kwargs["addtion_filter"]) else None;
          Ok(MakeNode(p.args[0], p.asVar, perPage, filter))
  }

  /** The tag fails exactly when it has no argument token, when `as` ends the
      tokens, or when no positional argument precedes `as`. */
  lemma CompileObjectListErrors(bits: seq<String>)
    requires |bits| >= 1
    ensures CompileObjectList(bits).Err? <==>
      |bits| < 2 || Parse(bits[1..]).Err? || |Parse(bits[1..]).value.args| == 0
  {
  }
}
