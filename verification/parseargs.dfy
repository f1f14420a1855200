/** `parse_args_kwargs_and_as_var`: the token parser shared by the template
    tags. Tokens before the first `as` are split on commas into positional
    arguments and `key=value` keyword arguments; the token after `as` names
    the context variable. */
module ParseArgs {
  import opened Wrappers
  import opened Text

  datatype Parsed = Parsed(args: seq<String>, kwargs: map<String, String>, asVar: Option<String>)

  /** `bits.next()` after a final `as` raises StopIteration. */
  datatype ParseError = MissingAsVariable

  /** What a tag's compile function raises: TemplateSyntaxError for a
      missing argument token, StopIteration for `as` as the last token,
      IndexError when no positional argument precedes `as`. */
  datatype TagError = TooFewArguments(tag: String) | AsWithoutVariable | NoPositionalArgument

  const Empty: Parsed := Parsed([], map[], None)

  /** The first position of `c` in `s`. */
  function IndexOf(s: String, c: char): (i: nat)
    requires c in s
    ensures i < |s| && s[i] == c && c !in s[..i]
  {
    if s[0] == c then 0
    else
      var i := 1 + IndexOf(s[1..], c);
      assert s[..i] == [s[0]] + s[1..][..i - 1];
      i
  }

  /** One comma-separated piece, as the inner loop sees it. */
  datatype Piece = Arg(text: String) | Kwarg(key: String, value: String) | Blank

  /** How the inner loop treats one piece: a piece holding `=` is a keyword
      argument whose key is the stripped text before the first `=` and whose
      value is everything after it, unstripped; any other non-empty piece is
      a positional argument; an empty piece is skipped. */
  function Classify(piece: String): (p: Piece)
    ensures p.Kwarg? <==> '=' in piece
    ensures p.Blank? <==> piece == []
    ensures p.Arg? ==> p.text == piece
    ensures p.Kwarg? ==> |p.key| < |piece| && |p.value| < |piece|
    ensures p.Kwarg? ==> piece == piece[..|piece| - |p.value| - 1] + "=" + p.value
    ensures p.Kwarg? ==> '=' !in piece[..|piece| - |p.value| - 1]
    ensures p.Kwarg? ==> p.key == Strip(piece[..|piece| - |p.value| - 1])
  {
    if '=' in piece then
      var i := IndexOf(piece, '=');
      var v := piece[i + 1..];
      assert |piece| - |v| - 1 == i;
      assert piece == piece[..i] + "=" + v;
      Kwarg(Strip(piece[..i]), v)
    else if piece != [] then Arg(piece)
    else Blank
  }

  /** The pieces of one token, classified. */
  function ClassifyAll(pieces: seq<String>): (r: seq<Piece>)
    ensures |r| == |pieces|
    ensures forall i :: 0 <= i < |pieces| ==> r[i] == Classify(pieces[i])
  {
    seq(|pieces|, i requires 0 <= i < |pieces| => Classify(pieces[i]))
  }

  /** The inner loop body for one piece. */
  function AddPiece(acc: Parsed, p: Piece): Parsed {
    match p
    case Kwarg(k, v) => acc.(kwargs := acc.kwargs[k := v])
    case Arg(t) => acc.(args := acc.args + [t])
    case Blank => acc
  }

  /** The inner loop over a run of pieces, left to right. */
  function AddPieces(acc: Parsed, pieces: seq<Piece>): Parsed {
    if |pieces| == 0 then acc
    else AddPiece(AddPieces(acc, pieces[..|pieces| - 1]), pieces[|pieces| - 1])
  }

  /** The outer loop over the tokens: `for bit in bits`, stopping at `as`. */
  function ParseFrom(bits: seq<String>, acc: Parsed): Result<Parsed, ParseError> {
    if |bits| == 0 then Ok(acc)
    else if bits[0] == "as" then
      if |bits| >= 2 then Ok(acc.(asVar := Some(bits[1]))) else Err(MissingAsVariable)
    else ParseFrom(bits[1..], AddPieces(acc, ClassifyAll(SplitOn(bits[0], ','))))
  }

  /** `parse_args_kwargs_and_as_var(parser, bits)`. */
  function Parse(bits: seq<String>): Result<Parsed, ParseError> {
    ParseFrom(bits, Empty)
  }

  /* ---------------------------------------------------------------------
     Reference descriptions
     --------------------------------------------------------------------- */

  /** The position of the first `as` token, if any. */
  function FirstAs(bits: seq<String>): (r: Option<nat>)
    ensures r.None? <==> "as" !in bits
    ensures r.Some? ==> r.value < |bits| && bits[r.value] == "as" && "as" !in bits[..r.value]
  {
    if |bits| == 0 then None
    else if bits[0] == "as" then Some(0)
    else
      match FirstAs(bits[1..])
      case None => None
      case Some(i) =>
        assert bits[..i + 1] == [bits[0]] + bits[1..][..i];
        Some(i + 1)
  }

  /** All comma-separated pieces of the tokens, in order, classified. */
  function Pieces(tokens: seq<String>): seq<Piece> {
    if |tokens| == 0 then [] else ClassifyAll(SplitOn(tokens[0], ',')) + Pieces(tokens[1..])
  }

  /** The texts of the positional pieces, in order. */
  function Positional(pieces: seq<Piece>): (r: seq<String>)
    ensures |r| <= |pieces|
  {
    if |pieces| == 0 then []
    else
      var p := pieces[|pieces| - 1];
      Positional(pieces[..|pieces| - 1]) + (if p.Arg? then [p.text] else [])
  }

  /** Piece `j` is a keyword argument with key `k`. */
  predicate KeyAt(pieces: seq<Piece>, j: int, k: String) {
    0 <= j < |pieces| && pieces[j].Kwarg? && pieces[j].key == k
  }

  /** No keyword piece after position `j` has key `k`. */
  predicate LastKeyAt(pieces: seq<Piece>, j: int, k: String) {
    KeyAt(pieces, j, k) && forall j' :: j < j' < |pieces| ==> !KeyAt(pieces, j', k)
  }

  /* ---------------------------------------------------------------------
     Lemmas
     --------------------------------------------------------------------- */

  /** Running the inner loop over two runs of pieces is running it over their concatenation. */
  lemma {:induction false} AddPiecesAppend(acc: Parsed, a: seq<Piece>, b: seq<Piece>)
    ensures AddPieces(acc, a + b) == AddPieces(AddPieces(acc, a), b)
    decreases |b|
  {
    if |b| == 0 {
      assert a + b == a;
    } else {
      assert (a + b)[..|a + b| - 1] == a + b[..|b| - 1];
      AddPiecesAppend(acc, a, b[..|b| - 1]);
    }
  }

  /** The outer loop is the inner loop over every piece before the first
      `as`, followed by the `as` rule. */
  lemma {:induction false} ParseFromShape(bits: seq<String>, acc: Parsed)
    ensures match FirstAs(bits)
      case None => ParseFrom(bits, acc) == Ok(AddPieces(acc, Pieces(bits)))
      case Some(i) =>
        if i + 1 < |bits| then ParseFrom(bits, acc) == Ok(AddPieces(acc, Pieces(bits[..i])).(asVar := Some(bits[i + 1])))
        else ParseFrom(bits, acc) == Err(MissingAsVariable)
  {
    if |bits| == 0 {
    } else if bits[0] == "as" {
      assert bits[..0] == [];
    } else {
      var acc' := AddPieces(acc, ClassifyAll(SplitOn(bits[0], ',')));
      ParseFromShape(bits[1..], acc');
      match FirstAs(bits[1..])
      case None =>
        AddPiecesAppend(acc, ClassifyAll(SplitOn(bits[0], ',')), Pieces(bits[1..]));
      case Some(i) =>
        assert bits[..i + 1][1..] == bits[1..][..i];
        assert Pieces(bits[..i + 1]) == ClassifyAll(SplitOn(bits[0], ',')) + Pieces(bits[1..][..i]);
        AddPiecesAppend(acc, ClassifyAll(SplitOn(bits[0], ',')), Pieces(bits[1..][..i]));
    }
  }

  /** The inner loop appends exactly the positional pieces, in order, and never touches `as_var`. */
  lemma {:induction false} AddPiecesArgs(acc: Parsed, pieces: seq<Piece>)
    ensures AddPieces(acc, pieces).args == acc.args + Positional(pieces)
    ensures AddPieces(acc, pieces).asVar == acc.asVar
    decreases |pieces|
  {
    if |pieces| > 0 {
      AddPiecesArgs(acc, pieces[..|pieces| - 1]);
    }
  }

  /** The inner loop defines a key iff some keyword piece carries it (or it was defined before). */
  lemma {:induction false} AddPiecesKeys(acc: Parsed, pieces: seq<Piece>, k: String)
    ensures k in AddPieces(acc, pieces).kwargs <==> k in acc.kwargs || exists j :: KeyAt(pieces, j, k)
    decreases |pieces|
  {
    if |pieces| > 0 {
      var n := |pieces| - 1;
      var front := pieces[..n];
      var last := AddPieces(acc, front);
      assert AddPieces(acc, pieces) == AddPiece(last, pieces[n]);
      AddPiecesKeys(acc, front, k);
      KeyAtSnoc(pieces, front, k);
      AddPieceKeys(last, pieces[n], k);
    }
  }

  /** A key occurs in a run of pieces iff it occurs before the last piece or in it. */
  lemma KeyAtSnoc(pieces: seq<Piece>, front: seq<Piece>, k: String)
    requires |pieces| > 0 && front == pieces[..|pieces| - 1]
    ensures (exists j :: KeyAt(pieces, j, k)) <==>
      (exists j :: KeyAt(front, j, k)) || KeyAt(pieces, |front|, k)
  {
    var n := |front|;
    if exists j :: KeyAt(pieces, j, k) {
      var j :| KeyAt(pieces, j, k);
      if j < n { assert front[j] == pieces[j]; assert KeyAt(front, j, k); }
    }
    if exists j :: KeyAt(front, j, k) {
      var j :| KeyAt(front, j, k);
      assert front[j] == pieces[j];
      assert KeyAt(pieces, j, k);
    }
  }

  /** One piece defines `k` iff it is a keyword piece with that key. */
  lemma AddPieceKeys(acc: Parsed, piece: Piece, k: String)
    ensures k in AddPiece(acc, piece).kwargs <==> k in acc.kwargs || (piece.Kwarg? && piece.key == k)
  {
  }

  /** A repeated key keeps the value of its last keyword piece. */
  lemma {:induction false} AddPiecesLastWins(acc: Parsed, pieces: seq<Piece>, j: int, k: String)
    requires LastKeyAt(pieces, j, k)
    ensures k in AddPieces(acc, pieces).kwargs
    ensures AddPieces(acc, pieces).kwargs[k] == pieces[j].value
    decreases |pieces|
  {
    var n := |pieces| - 1;
    var front := pieces[..n];
    if j < n {
      assert !KeyAt(pieces, n, k);
      assert LastKeyAt(front, j, k) by {
        forall j' | j < j' < |front|
          ensures !KeyAt(front, j', k)
        {
          assert !KeyAt(pieces, j', k);
        }
      }
      AddPiecesLastWins(acc, front, j, k);
    }
  }

  /** The `as` rule: no `as` token leaves `as_var` unset; the token after the
      first `as` becomes `as_var` and later tokens are ignored; a final `as`
      with nothing after it is an error. */
  lemma ParseAsVar(bits: seq<String>)
    ensures "as" !in bits ==> Parse(bits).Ok? && Parse(bits).value.asVar.None?
    ensures forall i :: 0 <= i < |bits| && bits[i] == "as" && "as" !in bits[..i] ==>
      if i + 1 < |bits| then Parse(bits).Ok? && Parse(bits).value.asVar == Some(bits[i + 1])
      else Parse(bits).Err?
  {
    ParseFromShape(bits, Empty);
    AddPiecesArgs(Empty, Pieces(bits));
    match FirstAs(bits)
    case None =>
    case Some(i) =>
      assert Parse(bits) == ParseFrom(bits, Empty);
  }

  /** The positional arguments are the non-empty, `=`-free pieces of the
      tokens before the first `as`, in order of appearance. */
  lemma ParseArgsInOrder(bits: seq<String>, before: seq<String>)
    requires before == (match FirstAs(bits) case None => bits case Some(i) => bits[..i])
    requires Parse(bits).Ok?
    ensures Parse(bits).value.args == Positional(Pieces(before))
  {
    ParseFromShape(bits, Empty);
    var acc := AddPieces(Empty, Pieces(before));
    AddPiecesArgs(Empty, Pieces(before));
    assert acc.args == Positional(Pieces(before));
    match FirstAs(bits)
    case None =>
      assert Parse(bits) == Ok(acc);
    case Some(i) =>
      assert Parse(bits) == Ok(acc.(asVar := Some(bits[i + 1])));
  }

  /** The keyword arguments: a key is defined iff some keyword piece before
      the first `as` carries it (stripped), and it maps to the unstripped
      value of the last such piece. */
  lemma ParseKwargs(bits: seq<String>, before: seq<String>)
    requires before == (match FirstAs(bits) case None => bits case Some(i) => bits[..i])
    requires Parse(bits).Ok?
    ensures forall k :: k in Parse(bits).value.kwargs <==> exists j :: KeyAt(Pieces(before), j, k)
    ensures forall j, k :: LastKeyAt(Pieces(before), j, k) ==>
      Parse(bits).value.kwargs[k] == Pieces(before)[j].value
  {
    ParseFromShape(bits, Empty);
    forall k
      ensures k in Parse(bits).value.kwargs <==> exists j :: KeyAt(Pieces(before), j, k)
    {
      AddPiecesKeys(Empty, Pieces(before), k);
    }
    forall j, k | LastKeyAt(Pieces(before), j, k)
      ensures Parse(bits).value.kwargs[k] == Pieces(before)[j].value
    {
      AddPiecesLastWins(Empty, Pieces(before), j, k);
    }
  }

  /** A worked token: `a,` gives a positional piece and an empty one, which is dropped. */
  lemma ExampleTrailingComma()
    ensures ClassifyAll(SplitOn("a,", ',')) == [Arg("a"), Blank]
  {
    SplitJoin(["a", ""], ',');
    assert Join(["a", ""], ',') == "a,";
    assert Classify("a") == Arg("a");
    assert Classify("") == Blank;
  }

  /** A worked token: ` b =x=y` gives the keyword `b` with the value `x=y`. */
  lemma ExampleKeyword()
    ensures ClassifyAll(SplitOn(" b =x=y", ',')) == [Kwarg("b", "x=y")]
  {
    SplitNoSep(" b =x=y", ',');
    ExampleKey();
  }

  /** A string without the separator is one piece. */
  lemma SplitNoSep(s: String, sep: char)
    requires sep !in s
    ensures SplitOn(s, sep) == [s]
  {
    SplitJoin([s], sep);
  }

  /** A keyword piece: the key is stripped, the value keeps its later `=`. */
  lemma ExampleKey()
    ensures Classify(" b =x=y") == Kwarg("b", "x=y")
  {
    var piece := " b =x=y";
    ExampleIndex();
    ExampleStrip();
    assert piece[..3] == " b " && piece[4..] == "x=y";
  }

  lemma ExampleIndex()
    ensures IndexOf(" b =x=y", '=') == 3
  {
    var piece := " b =x=y";
    assert piece[1..] == "b =x=y" && piece[2..] == " =x=y" && piece[3..] == "=x=y";
    assert IndexOf(piece[3..], '=') == 0;
    assert IndexOf(piece[2..], '=') == 1;
    assert IndexOf(piece[1..], '=') == 2;
  }

  lemma ExampleStrip()
    ensures Strip(" b ") == "b"
  {
    assert " b "[1..] == "b ";
    assert "b "[..1] == "b";
    assert RStrip("b ") == "b";
    assert Strip("b ") == "b";
  }


}
