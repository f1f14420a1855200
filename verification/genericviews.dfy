/** `GenericViews`: a paginated list view and a detail view over a model
    whose objects are looked up by integer id. */
module GenericViews {
  import opened Wrappers
  import opened Text
  import opened PageParam

  /** `Paginator(queryset, 3, allow_empty_first_page=True)`. */
  const PerPage: int := 3

  /** What the list view hands to its template: the page size and the page shown. */
  datatype ListView = ListView(perPage: int, page: int)

  /** `object_list`: three objects per page, the page chosen from the
      request's `page` parameter. */
  function ObjectList(raw: Option<String>, numPages: int): (v: ListView)
    requires numPages >= 1
    ensures v.perPage == PerPage
    ensures ValidPage(v.page, numPages)
    ensures raw.None? ==> v.page == 1
    ensures raw.Some? && ParseInt(raw.value).Some? ==>
      v.page == if ValidPage(ParseInt(raw.value).value, numPages) then ParseInt(raw.value).value else 1
    ensures raw == Some("last") ==> v.page == numPages
    ensures raw.Some? && ParseInt(raw.value).None? && raw.value != "last" ==> v.page == 1
  {
    LastSelectsLastPage(numPages);
    ListView(PerPage, ResolvePage(raw, numPages))
  }

  /** Why `detail` fails: `int(id)` raises ValueError, or no object has the id (Http404). */
  datatype DetailError = BadId | NotFound(message: String)

  /** `detail`: the object with the integer id, or a not-found error naming the id. */
  function Detail<T>(id: String, objects: map<int, T>): (r: Result<T, DetailError>)
    ensures r.Ok? <==> ParseInt(id).Some? && ParseInt(id).value in objects
    ensures r.Ok? ==> r.value == objects[ParseInt(id).value]
    ensures r == Err(BadId) <==> ParseInt(id).None?
    ensures ParseInt(id).Some? && ParseInt(id).value !in objects ==> r == Err(NotFound(id + " Not found."))
  {
    match ParseInt(id)
    case None => Err(BadId)
    case Some(n) =>
      if n in objects then Ok(objects[n]) else Err(NotFound(id + " Not found."))
  }

  /** An id written in decimal finds exactly the object stored under it. */
  lemma DetailDecimal<T>(n: nat, objects: map<int, T>)
    ensures Detail(Decimal(n), objects).Ok? <==> n in objects
    ensures n in objects ==> Detail(Decimal(n), objects) == Ok(objects[n])
  {
    ParseDecimal(n);
  }

  /** The not-found message ends in ` Not found.` after the id as written. */
  lemma NotFoundMessage<T>(id: String, objects: map<int, T>)
    requires Detail(id, objects).Err? && Detail(id, objects).error.NotFound?
    ensures var m := Detail(id, objects).error.message;
      |m| == |id| + 11 && m[..|id|] == id && m[|id|..] == " Not found."
  {
  }
}
