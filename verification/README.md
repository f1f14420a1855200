# Reusable: a verified model of its deterministic core

This project is a Dafny model of the parts of the Reusable Django/App Engine
applications that compute something for themselves, rather than handing the
work to Django or the datastore. The parts are:

- **PageRank** (`pagerank.dfy`): the Google Toolbar checksum. It has three steps:
  - the 32-bit multiplicative string fold `IntStr`;
  - the bit shuffle `HashURL`;
  - the Luhn-style check digit of `CheckHash`.
- **Paginator** (`paginator.dfy`): the Digg-style page window of the
  `paginator` inclusion tag.
- **Taggable** (`taggable.dfy`): the tag store. It holds one tag record per
  object and a counter per tag. The model is an immutable pair of maps, and
  `add_tags`, `remove_tags` and `clear_tags` are transitions on it. The
  invariant is that each counter equals the number of objects carrying the
  tag.
- **ParseArgs** (`parseargs.dfy`): the template-tag argument parser. It handles
  positional arguments, `key=value` arguments and `as variable`.
- **Render** (`render.dfy`): the `render` template tag. It covers:
  - default template paths;
  - recursive rendering of lists as `<ul>` or `<table>`;
  - list templates;
  - the error text for a missing template;
  - the tag's compile function.
- **PageParam**, **ObjectListTag** and **GenericViews** (`pageparam.dfy`,
  `objectlist.dfy`, `genericviews.dfy`). These cover:
  - how the `page` request parameter selects a page;
  - the `makeobjectlist` tag;
  - the generic list and detail views.
- **Auth** (`auth.dfy`): the current user. Facebook is tried first, then
  Google, else the user is anonymous. Each provider lookup is a get-or-create
  of a user profile.
- **Text** and **Wrappers** (`text.dfy`, `wrappers.dfy`): the Python string
  builtins the code relies on and `Option`/`Result`. The builtins are
  `strip`, `split`, `lower`/`upper`, `int()` and `"%u"`.

Some parts of the environment become inputs of the model:

- **Template engine.** `render_to_string` is an abstract `Engine` function. It
  returns `None` where Django raises `TemplateDoesNotExist`.
- **Variable resolution.** Template variables are resolved through abstract
  lookup functions.
- **Paginator.** Django's paginator is represented by its page count
  (`numPages >= 1`). It accepts exactly the pages `1..numPages`.
- **Request and providers.** The request's `page` parameter is an
  `Option<String>`. The signed-in Google account and the Facebook session are
  also parameters.

## Model

| member | source | states |
|---|---|---|
| PageRank.IntStr | PageRank/__init__.py:10-15 | The fold of the empty string is the initial integer. Because the 32-bit mask comes before the add, any other result is at most `0xFFFFFFFF + 255`. |
| PageRank.IntStrAppend | PageRank/__init__.py:10-15 | `IntStr` is a left fold: folding `s + t` is folding `t` starting from the result for `s`. |
| PageRank.IntStrLoop | PageRank/__init__.py:10-15 | The source's left-to-right loop (multiply, mask, add) computes the fold and stays within the same bound. |
| PageRank.Compact | PageRank/__init__.py:22-25 | After `C1 >>= 2` and the three compaction steps, C1 fits in 18 bits. |
| PageRank.Low | PageRank/__init__.py:27-29 | T1 fits in 16 bits. Its `0x0F0F` nibbles are exactly C2's. |
| PageRank.High | PageRank/__init__.py:31-33 | T2 has no bit below 16 and fits in 32 bits. Its `0x0F0F0000` nibbles are exactly C2's. |
| PageRank.MixNibbles | PageRank/__init__.py:22-35 | `T1 \| T2` is a 32-bit value. Its `0x0F0F0F0F` nibbles are C2's, so C1 only reaches the other nibbles. |
| PageRank.HashURL | PageRank/__init__.py:18-35 | Uses C1 = `IntStr(s, 0x1505, 0x21)` and C2 = `IntStr(s, 0, 0x1003F)`. The hash is below 2^32 and `hash & 0x0F0F0F0F == C2 & 0x0F0F0F0F`. |
| PageRank.WeightDigit | PageRank/__init__.py:45-48 | An undoubled digit contributes itself. A doubled digit contributes its double below 5, and the double less 9 from 5 on (the digit sum of the double). |
| PageRank.WeightInjective | PageRank/__init__.py:45-48 | Doubling and digit-summing permutes the digits modulo ten. |
| PageRank.LuhnPrepend | PageRank/__init__.py:43-51 | A digit in front of the numeral adds its weight, which depends on how many digits stand to its right. |
| PageRank.CheckDigit | PageRank/__init__.py:53-59 | The check digit is a single digit 0..9, including after the odd-length halving. For an even-length numeral it is `(10 - sum % 10) % 10`. |
| PageRank.CheckDigitWeight | PageRank/__init__.py:53-59 | Written in front, the check digit contributes exactly the complement of the weighted sum modulo ten. This covers both the even case and the odd-length halving. |
| PageRank.CheckDigitValid | PageRank/__init__.py:53-61 | Written in front of the numeral, a digit makes the weighted digit sum a multiple of ten if and only if it is the check digit. |
| PageRank.WeightedSum | PageRank/__init__.py:43-51 | The right-to-left loop ends with the weighted digit sum `LuhnSum` of the numeral, and `Flag` equal to its length. |
| PageRank.CheckHash | PageRank/__init__.py:38-61 | The output is `'7'`, then the check digit, then the unchanged `"%u"` string, so its length is `len + 2`. The output after the `'7'` passes the Luhn-style test. |
| PageRank.HashValue | PageRank/__init__.py:18-35 | The hash read as a Python integer is below 2^32. |
| PageRank.CheckHash32 | PageRank/__init__.py:38-61 | On a value below 2^32 the checksum has 3 to 12 characters, starts with `'7'` and ends with the decimal value. |
| PageRank.UrlChecksum | PageRank/__init__.py:65 | The checksum of a URL starts with `'7'`, ends with the decimal hash, and has 3 to 12 characters. |
| Paginator.KeepValid | paginatortag/templatetags/paginator.py:26-40 | The filter `n > 0 and n <= pages` keeps exactly the in-range members of the candidate list. |
| Paginator.KeepValidAscending | paginatortag/templatetags/paginator.py:26-40 | Filtering an ascending candidate list keeps it strictly ascending. |
| Paginator.KeepValidAll | paginatortag/templatetags/paginator.py:26-40 | Filtering a list whose entries are all in range returns it unchanged. |
| Paginator.Paginate | paginatortag/templatetags/paginator.py:16-55 | A window exists if and only if the page has other pages. It carries the page and page count. `page_numbers` is strictly ascending and lies in `1..pages`. |
| Paginator.SmallWindow | paginatortag/templatetags/paginator.py:26-28 | With at most ten pages, the window shows `[1..pages]`, sets both range flags and has empty outside lists. |
| Paginator.LeadingWindow | paginatortag/templatetags/paginator.py:29-33 | With more than ten pages and `page <= 8`, the window shows `[1..10]`, only the leading flag is set, and the outside links are `[pages, pages-1]`. This case also wins when `page > pages - 8` holds. |
| Paginator.TrailingWindow | paginatortag/templatetags/paginator.py:33-36 | Otherwise, with `page > pages - 8`, the window shows `[pages-9..pages]`, only the trailing flag is set, and the outside links are `[1, 2]`. |
| Paginator.MiddleWindow | paginatortag/templatetags/paginator.py:37-40 | In the middle case the window shows exactly nine pages `[page-4..page+4]` centred on `page`, with both outside lists set. |
| Text.Strip | taggable/models.py:5 | `strip()` on unicode text, with Python 2's whitespace set: ASCII whitespace, U+001C..U+001F, U+0085, U+00A0, U+1680, U+180E, U+2000..U+200A, U+2028, U+2029, U+202F, U+205F and U+3000. It leaves no whitespace at either end, never grows the string, keeps only characters of its input, and leaves an already trimmed string unchanged. Stripping twice is therefore stripping once. |
| Text.StripIsBothEnds | taggable/models.py:5 | `strip()` is `lstrip()` followed by `rstrip()`. |
| Text.LStrip | rendertag/templatetags/render.py:45 | `lstrip()` returns the suffix after the leading whitespace run, with the same unicode whitespace set as `strip()`, and nothing else. |
| Text.StripUnicodeSpace | taggable/models.py:5 | A leading no-break space (U+00A0) or ideographic space (U+3000) is stripped. |
| Text.SplitOn | renderhelpers/templatetags/parseargshelper.py:12 | `split(",")` returns at least one piece. No piece holds the separator, and joining the pieces gives back the input. |
| Text.SplitJoin | renderhelpers/templatetags/parseargshelper.py:12 | Splitting the join of separator-free pieces returns those pieces. |
| Text.LowerHasNoUpper | rendertag/templatetags/render.py:68-70 | A lower-cased string has no upper-case letter, and lowering is idempotent. |
| Text.Decimal | PageRank/__init__.py:39 | `"%u" % n` is a canonical numeral (no leading zero) whose value is `n`. |
| Text.DecimalOfDigits | PageRank/__init__.py:39 | Every canonical numeral is the `"%u"` form of its value. |
| Text.ParseDecimal | objectlisttag/templatetags/makeobjectlist.py:48 | `int(str(n)) == n` for every non-negative `n`. |
| Text.ParseIntNeedsDigit | objectlisttag/templatetags/makeobjectlist.py:47-49 | A string without a decimal digit makes `int()` fail. |
| Taggable.Cleanup | taggable/models.py:3-6 | Every tag returned by `cleanup` is non-empty and stripped. |
| Taggable.CleanupDistinct | taggable/models.py:3-6 | `cleanup` never returns a tag twice. |
| Taggable.CleanupMembers | taggable/models.py:3-6 | A tag is in `cleanup(tags)` if and only if it is a non-empty stripped input. |
| Taggable.CleanupKeepsClean | taggable/models.py:3-6 | Cleaning a duplicate-free list of clean tags gives the same tags, each once (equal multisets). Equality as lists holds only for the model's first-occurrence order. |
| Taggable.CleanupIdempotent | taggable/models.py:3-6 | `cleanup` is idempotent as a set: `cleanup(cleanup(x))` has the same tags as `cleanup(x)`, and as many. Equality as lists holds only for the model's first-occurrence order. |
| Taggable.CleanupUnicodeSpace | taggable/models.py:3-6 | `cleanup([u"\xa0django"])` gives `["django"]`: a tag typed after a no-break space is stored without it. |
| Taggable.AddOne | taggable/models.py:81-88 | `Tag.add` creates a missing tag with count 1 and otherwise adds one. No other counter changes. |
| Taggable.RemoveOne | taggable/models.py:90-98 | `Tag.remove` subtracts one from an existing tag and deletes it once the count is not positive. A missing tag is left alone. No other counter changes. |
| Taggable.AddSet | taggable/models.py:100-103 | `Tag.addset` raises each counter by the tag's number of occurrences, and keeps counters positive. |
| Taggable.RemoveSet | taggable/models.py:105-108 | `Tag.removeset` leaves the counters of tags not listed untouched and keeps every counter positive. |
| Taggable.RemoveSetCount | taggable/models.py:105-108 | `Tag.removeset` lowers a listed tag's counter by its number of occurrences, never below zero. |
| Taggable.AppendNew | taggable/models.py:42-45 | On an existing record, the loop keeps the old list as a prefix. Afterwards the list holds exactly the old and the requested tags, stays duplicate-free, and each requested tag not yet present adds one to its counter. |
| Taggable.AppendNewSuffix | taggable/models.py:42-45 | Every tag the loop appends was requested and was not yet in the list. |
| Taggable.RemoveFirst | taggable/models.py:56 | `list.remove(x)` drops one occurrence of `x` and nothing else. |
| Taggable.RemoveEachEffect | taggable/models.py:54-57 | On a duplicate-free list, the loop keeps exactly the tags not asked for, in order. It decrements only the counters of tags it removed. |
| Taggable.AddTags | taggable/models.py:34-47 | A new record holds exactly the cleaned tags. An existing record keeps its tags as a prefix and afterwards holds exactly its old tags and the cleaned ones. Other records are unchanged, and the record is returned. |
| Taggable.AddTagsAppendsNew | taggable/models.py:41-45 | On a tagged object, `add_tags` appends only cleaned tags the record did not hold, after the unchanged old tags. |
| Taggable.RemoveTags | taggable/models.py:49-63 | An object without a record is untouched and `None` is returned. An object whose list becomes empty loses its record. Other records are unchanged. |
| Taggable.ClearTags | taggable/models.py:24-32 | Deletes the object's record and returns it. An object without a record gives `None` and no change. |
| Taggable.AddTagsNewConsistent | taggable/models.py:38-40 | Creating a record with `addset` keeps every counter equal to its number of holders. |
| Taggable.AddTagsExistingConsistent | taggable/models.py:41-45 | Appending to a record keeps every counter equal to its number of holders. |
| Taggable.AddTagsConsistent | taggable/models.py:34-47 | `add_tags` preserves the store invariant: duplicate-free records, positive counters, each count equal to the number of holders. |
| Taggable.RemoveTagsConsistent | taggable/models.py:49-63 | `remove_tags` preserves the store invariant. |
| Taggable.ClearTagsConsistent | taggable/models.py:24-32 | `clear_tags` preserves the store invariant. |
| Taggable.AddTagsCounts | taggable/models.py:34-47 | `add_tags` raises by one exactly the counters of cleaned tags the object did not carry, and no others. |
| Taggable.RemoveTagsCounts | taggable/models.py:49-63 | `remove_tags` returns the record without the requested tags, in order. It decrements only counters of tags the object carried. |
| Taggable.ClearTagsCounts | taggable/models.py:24-32 | `clear_tags` decrements the counter of every tag on the record, and of no other tag. |
| ParseArgs.Classify | renderhelpers/templatetags/parseargshelper.py:13-18 | A piece is a keyword argument if and only if it holds `=`, and it is dropped if and only if it is empty. The key is the stripped text before the first `=`. The value is the unstripped rest, which may hold `=`. |
| ParseArgs.FirstAs | renderhelpers/templatetags/parseargshelper.py:7-10 | Gives the position of the first `as` token, or none if there is no `as`. |
| ParseArgs.ParseFromShape | renderhelpers/templatetags/parseargshelper.py:6-19 | Parsing processes every piece of the tokens before the first `as`, then applies the `as` rule, and ignores later tokens. |
| ParseArgs.AddPiecesArgs | renderhelpers/templatetags/parseargshelper.py:12-18 | The inner loop appends exactly the positional pieces, in order. |
| ParseArgs.AddPiecesKeys | renderhelpers/templatetags/parseargshelper.py:13-16 | The inner loop defines a key if and only if some keyword piece carries it. |
| ParseArgs.AddPiecesLastWins | renderhelpers/templatetags/parseargshelper.py:16 | A repeated key keeps the value of its last occurrence. |
| ParseArgs.ParseAsVar | renderhelpers/templatetags/parseargshelper.py:4-10 | Without `as`, `as_var` is `None`. The token after the first `as` becomes `as_var`. A final `as` is an error. |
| ParseArgs.ParseArgsInOrder | renderhelpers/templatetags/parseargshelper.py:7-18 | The positional arguments are the non-empty, `=`-free pieces before the first `as`, in order of appearance. |
| ParseArgs.ParseKwargs | renderhelpers/templatetags/parseargshelper.py:13-16 | A key is defined if and only if a keyword piece before `as` carries it. It maps to the value of the last such piece. |
| ParseArgs.ExampleTrailingComma | renderhelpers/templatetags/parseargshelper.py:12-18 | The token `a,` gives one positional piece and one empty piece, which is dropped. |
| ParseArgs.ExampleKeyword | renderhelpers/templatetags/parseargshelper.py:12-16 | The token ` b =x=y` gives the key `b` with the value `x=y`. |
| ParseArgs.ExampleKey | renderhelpers/templatetags/parseargshelper.py:13-16 | The key is stripped, and the value keeps its later `=`. |
| Render.DefaultPath | rendertag/templatetags/render.py:67-71 | The default path starts with `components/`, ends with `.html` and has no upper-case letter. |
| Render.DefaultPathNamesClass | rendertag/templatetags/render.py:67-71 | Without a postfix, the part between `components/` and `.html` is the lower-cased class name. |
| Render.DefaultPathInjective | rendertag/templatetags/render.py:67-71 | For class names without `_`, two default paths are equal if and only if the class names and the postfixes agree up to case. |
| Render.ErrorText | rendertag/templatetags/render.py:79 | The error text is the path wrapped in a fixed 26-character frame. |
| Render.ErrorTextNamesPath | rendertag/templatetags/render.py:79 | Two error texts are equal if and only if their paths are equal. |
| Render.WrapLoop | rendertag/templatetags/render.py:36-57 | The source's loop with its `hasDetected`/`isTable` flags produces the list markup of the rendered items. |
| Render.TableCellChars | rendertag/templatetags/render.py:45 | An item counts as a table cell if and only if, after leading whitespace, it starts with `<` then `t`/`T` then `d`/`D`. |
| Render.WrapItemsShape | rendertag/templatetags/render.py:44-57 | An empty list gives `<ul></ul>`. Otherwise the markup is a table if and only if the first item is a table cell. The output is the opening tag, the wrapped items before item `k`, item `k` in its own `<tr>` or `<li>`, the wrapped items after it, and the closing tag. |
| Render.RenderNothing | rendertag/templatetags/render.py:31-32 | `None` renders as the empty string. |
| Render.RenderObject | rendertag/templatetags/render.py:66-79 | A single object, or a dict, is rendered by the explicit path if one is given, else by the default path, with `{'object': obj}`. A missing template gives the error text. |
| Render.RenderWithListTemplate | rendertag/templatetags/render.py:60-64 | A list with a list template is rendered once by that template, with the list and the original path. A missing template gives the error text. |
| Render.RenderListItem | rendertag/templatetags/render.py:34-57 | A list without a list template wraps its rendered items. The rendering of item `k` appears in its own row or list entry, between the wrapped renderings of the items before it and those after it. |
| Render.RenderEmptyList | rendertag/templatetags/render.py:34-57 | An empty non-dict list renders as `<ul></ul>`. |
| Render.NodePath | rendertag/templatetags/render.py:99-105 | A missing or empty template name gives no path. A name that does not resolve is used as written. |
| Render.NodeRender | rendertag/templatetags/render.py:93-111 | An object reference that does not resolve renders as the empty string. |
| Render.NodeDefaultTemplate | rendertag/templatetags/render.py:99-111 | Without a template name, a single object is rendered with its class's default template, and `templatetype` gives the postfix. |
| Render.CompileRender | rendertag/templatetags/render.py:113-123 | A single token is a syntax error. Otherwise the first positional argument is the object, and `template`, `templatetype` and `listtemplate` fill the template name, postfix and list template. |
| Render.CompileRenderErrors | rendertag/templatetags/render.py:113-123 | Apart from the errors of Django's `template.Variable` (see Left out), the tag fails if and only if there is no argument token, `as` ends the tokens, or no positional argument precedes `as`. |
| PageParam.PageNumber | objectlisttag/templatetags/makeobjectlist.py:45-54 | A missing parameter asks for page 1. An integer string asks for its value. |
| PageParam.ResolvePage | objectlisttag/templatetags/makeobjectlist.py:45-59 | The page shown is always valid. It is the page asked for if the paginator accepts it, else page 1. |
| PageParam.LastSelectsLastPage | objectlisttag/templatetags/makeobjectlist.py:49-51 | `last` selects the last page. |
| PageParam.MissingSelectsFirstPage | objectlisttag/templatetags/makeobjectlist.py:45 | A missing parameter selects page 1. |
| PageParam.DecimalSelectsPage | objectlisttag/templatetags/makeobjectlist.py:47-48 | The decimal text of any valid page selects that page. |
| PageParam.NonNumericSelectsFirstPage | objectlisttag/templatetags/makeobjectlist.py:52-54 | Any parameter with no digit, other than `last`, selects page 1. |
| PageParam.ResolvePageCases | objectlisttag/templatetags/makeobjectlist.py:45-59 | The page differs from 1 if and only if the parameter names it, as an in-range integer or as `last` with several pages. |
| ObjectListTag.MakeNode | objectlisttag/templatetags/makeobjectlist.py:18-26 | `paginate_by` is the integer value of the argument, or 10 when it is missing or does not parse. The other fields are kept. |
| ObjectListTag.PerPageRoundTrip | objectlisttag/templatetags/makeobjectlist.py:21-22 | A page size written in decimal is taken as is. |
| ObjectListTag.RenderNode | objectlisttag/templatetags/makeobjectlist.py:28-65 | The tag outputs `''`. It binds `paginator` and `page_obj` to the resolved page, and the `as` variable to that page's objects unless one of the two overrides it. Other context keys are kept. |
| ObjectListTag.RenderNodeKeys | objectlisttag/templatetags/makeobjectlist.py:61-63 | The tag adds exactly its three names to the context. |
| ObjectListTag.RenderNodeValidPage | objectlisttag/templatetags/makeobjectlist.py:56-61 | The objects bound come from a valid page, the same one as `page_obj`. |
| ObjectListTag.CompileObjectList | objectlisttag/templatetags/makeobjectlist.py:68-77 | A single token is a syntax error. Otherwise the first positional argument is the list and `as_var` is kept. `addtion_filter` comes from the keyword arguments, and so does `paginate_by`: `int()` of the keyword's value, or 10 when it is missing or does not parse. |
| ObjectListTag.CompileObjectListErrors | objectlisttag/templatetags/makeobjectlist.py:68-77 | Apart from the errors of Django's `template.Variable` (see Left out), the tag fails if and only if there is no argument token, `as` ends the tokens, or no positional argument precedes `as`. |
| GenericViews.ObjectList | GAEGenericViews/genericviews.py:9-24 | The list view shows 3 items per page and always a valid page. A missing parameter gives page 1. An integer gives that page when it is in range, and page 1 otherwise. `last` gives the last page, and any other text gives page 1. |
| GenericViews.Detail | GAEGenericViews/genericviews.py:32-35 | The view succeeds if and only if the id parses and names a stored object, and it returns that object. A bad id is an error. A missing object raises not-found with `'<id> Not found.'`. |
| GenericViews.DetailDecimal | GAEGenericViews/genericviews.py:33 | A decimal id finds exactly the object stored under it. |
| GenericViews.NotFoundMessage | GAEGenericViews/genericviews.py:35 | The not-found message is the id as written followed by ` Not found.`. |
| Auth.UserFacts | auth/user.py:6-86 | The anonymous user is unauthenticated, has no profile, and has name `Guest` and email `@`. A user is authenticated if and only if it has a profile. A Facebook user's name and email are its `fbuid`. |
| Auth.GoogleGetUser | auth/user.py:35-46 | There is no user if and only if no Google account is signed in. Otherwise the Google user of that account is returned, and it is mapped to its profile. Facebook mappings are unchanged. |
| Auth.FacebookGetUser | auth/user.py:66-77 | There is no user if and only if there is no Facebook session or the session check fails. Otherwise the user keyed by `fbuid` is returned and mapped. Google mappings are unchanged. |
| Auth.CurrentUser | auth/user.py:88-94 | An anonymous result leaves the store unchanged. |
| Auth.GoogleFirstLogin | auth/user.py:39-43 | A first Google login creates exactly one profile, named after the nickname with a gravatar image of the email, and maps the account to it. |
| Auth.GoogleReturning | auth/user.py:39-44 | A returning Google account gets its stored profile and nothing is created. |
| Auth.GoogleIdempotent | auth/user.py:35-46 | A second Google lookup finds the same user and changes nothing. |
| Auth.FacebookFirstLogin | auth/user.py:71-75 | A first Facebook login creates exactly one profile, named after the `fbuid` with a Facebook image, and maps the id to it. |
| Auth.FacebookIdempotent | auth/user.py:66-77 | A second Facebook lookup finds the same user and changes nothing. |
| Auth.GoogleConsistent | auth/user.py:35-46 | A Google lookup keeps every mapping pointing at a stored profile of its own, and the profile returned is stored. |
| Auth.FacebookConsistent | auth/user.py:66-77 | A Facebook lookup keeps the same invariant, and the profile returned is stored. |
| Auth.CurrentUserConsistent | auth/user.py:88-94 | `get_current_user` keeps the invariant, and the current user's profile is stored. |
| Auth.FacebookFirst | auth/user.py:89-93 | A valid Facebook session wins, and no Google mapping is created. |
| Auth.GoogleSecond | auth/user.py:89-93 | Without a valid Facebook session, the Google account decides, and Facebook mappings are untouched. |
| Auth.AnonymousLast | auth/user.py:88-94 | With neither provider the user is anonymous and the store is unchanged. |
| Auth.CurrentUserAuthenticated | auth/user.py:88-94 | The current user is authenticated if and only if some provider answers. |

## Left out

- `PageRank()` itself. It makes an HTTP fetch and parses the response; the model keeps only the checksum it sends.
- `urllib.quote`, `urlfetch`, `memcache`, logging and `mark_safe`. These are I/O or markers with no effect on the computed text.
- Django's paginator internals: slicing the query into pages, `previous_page_number`, `next_page_number`, `has_previous`, `has_next` and `per_page`. The page window copies these values into its result without computing them, so `Paginator.Window` leaves them out.
- The `eval("object." + addtion_filter)` of `makeobjectlist`. The model stores the filter text and does not evaluate it.
- The `as_var` of the `render` tag. It is parsed and stored but never used by `render`, and the model does the same.
- Template variable resolution. It is an abstract lookup, and a `template` name that resolves to a non-string value is not modelled.
- Render.RenderValue: a Python `str` has `__len__` and is not a dict, so `renderhelper` would treat a string object as a list of one-character strings and recurse without end. The `Value` datatype has no string case, so this path is not modelled.
- The datastore. This includes `get_taggable`, query ordering, `get_by_tag`, `get_tag`, `cloud`, the `put`/`delete` calls and the timestamps. Objects are integer keys, and the store is two maps.
- Taggable.Cleanup: `cleanup` returns `list(set(...))`, so its order is CPython's hash-table order. For example, `cleanup([u"b", u"a"])` gives `[u"a", u"b"]`, and cleaning a result again can reorder it. The model keeps first occurrences in input order. The order-free clauses, about contents, absence of duplicates, and equal multisets or sets, are what the source guarantees. The list equalities in `Taggable.CleanupKeepsClean` and `Taggable.CleanupIdempotent` hold only for the model's order. Callers use a cleaned list only by membership and one loop step per tag, so the counters do not depend on the order. The order of tags appended to an existing record does.
- Text.ParseInt: it accepts optional surrounding whitespace, one sign and ASCII decimal digits. Python 2's `int()` also accepts whitespace between the sign and the digits, and non-ASCII digits in a unicode string; both are outside the model. Its own contract says only that a parsed string holds a digit. The exact behaviour is stated by `Text.ParseDecimal` and `Text.ParseIntNeedsDigit`.
- Text.Lower: `lower()`/`upper()` are modelled on ASCII letters only. The unicode case mapping of other letters is not modelled.
- `GenericViews.detail` loads the object through `get_by_id` on the model class. It is modelled as a map lookup, so the datastore's errors for non-positive ids are not modelled.
- ObjectListTag.MakeNode: a `paginate_by` that parses to zero or a negative number is stored as is. What Django's paginator then does is not modelled: zero divides by zero, and a negative size gives a page count of zero or less while page 1 is still served because an empty first page is allowed. `ObjectListTag.RenderNode` takes the page count as a parameter of at least 1.
- ObjectListTag.RenderNode: the list the tag names is assumed to resolve. When it does not, the source passes `None` to Django's paginator, whose `len(None)` raises `TypeError` when the page count or the page is asked for, so the tag's rendering fails. The model always renders `''`. The template context is also assumed to hold the `request` that the tag reads the `page` parameter from (`context['request']` raises `KeyError` without it). The model takes the parameter directly.
- `login_html` and `logout_html`. These return fixed markup or URLs produced by the Google users API.
- Auth: the JSON image strings (`simplejson.dumps`) are modelled as the `Image` datatype. The key order of the real JSON text is not modelled.
- Auth: the `users.User` value is modelled as its nickname and email. The `user()` method of the entities is modelled as the profile reference.
- Auth.CurrentUser: its own contract states only the anonymous case. Provider order and the other outcomes are stated by `Auth.FacebookFirst`, `Auth.GoogleSecond`, `Auth.AnonymousLast` and `Auth.CurrentUserAuthenticated`.
- Concurrency. Each request is modelled as one atomic step, and requests run one after another. The source has no transactions: `Tag.add`/`Tag.remove` read a counter and write it back, `add_tags`/`remove_tags` read the tag record and then `put` it, and the Google and Facebook get-or-create paths query and then create. Two concurrent requests can lose a counter change, or create two records for one object or two profiles for one account. Then the invariants that `Taggable.AddTagsConsistent`, `Auth.GoogleConsistent` and `Auth.FacebookConsistent` prove no longer hold.
- Render.CompileRenderErrors: the compile function builds Django's `template.Variable` from the object reference outside any `try`. Django rejects a reference that starts with `_` (other than a `_(...)` translation) or contains `._` with `TemplateSyntaxError` at that point. Django's variable syntax is not modelled, so the model accepts such a reference.
- ObjectListTag.CompileObjectListErrors: `MakeObjectListNode` builds `template.Variable(object_ref)` when the tag compiles, and the same underscore rule of Django applies. The model accepts such a reference.
- PageRank.HashURL: the URL is a unicode string, and `HashURL` itself runs on any code point. The `urllib.quote(URL)` that follows looks each character up in a table keyed by byte strings, so it raises `KeyError` for any code point of 128 and above, and no checksum is sent for such a URL. The model takes code points 0..255. The range 128..255 is a harmless over-approximation: the model computes a checksum there that the source never sends.
- Response rendering (`AutoRendResponse`) and the template files. These are Django plumbing outside the computed values.
