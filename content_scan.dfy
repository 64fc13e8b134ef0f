/** The behaviour of PDFStreamParser as pure functions of the bytes still to
    be read: one call of parseNextToken (Next), the BI parameter loop
    (ImageParameters), the inline-image data scan (ImageScan) and the parse
    driver (ParseAll). The imperative parser in module StreamParser is proved
    to compute exactly these. */
module ContentScan {
  import opened Wrappers
  import opened Lexical
  import opened CosDictionary
  import opened ContentTokens

  ghost predicate IsSuffix(r: seq<Byte>, s: seq<Byte>)
  {
    |r| <= |s| && r == s[|s| - |r|..]
  }

  /** Decreases with every token produced. An ID at the very end of the input
      leaves "EI" behind, as long as the "ID" it consumed; the extra unit for
      the exact remainder "ID" accounts for that one step. */
  function Measure(s: seq<Byte>): nat
  {
    2 * |s| + if s == [73, 68] then 1 else 0
  }

  lemma SuffixMeasure(r: seq<Byte>, s: seq<Byte>)
    requires IsSuffix(r, s)
    ensures Measure(r) <= Measure(s)
    ensures |r| < |s| ==> Measure(r) < Measure(s)
  {
    if |r| == |s| {
      assert r == s;
    }
  }

  /** skipSpaces: drops leading white-space (comments are not modelled). */
  function SkipWs(s: seq<Byte>): (r: seq<Byte>)
    ensures IsSuffix(r, s)
    ensures r == [] || !IsWhitespace(r[0])
  {
    if s != [] && IsWhitespace(s[0]) then SkipWs(s[1..]) else s
  }

  // ---------------------------------------------------------------- numbers

  /** The number loop after the first character: digits, and one '.' while
      `dotNotRead` holds. */
  function NumberTail(s: seq<Byte>, dotNotRead: bool): (n: nat)
    ensures n <= |s|
  {
    if s != [] && (IsDigit(s[0]) || (dotNotRead && s[0] == '.' as int))
    then 1 + NumberTail(s[1..], dotNotRead && s[0] != '.' as int)
    else 0
  }

  /** Length of the numeric literal at the start of `s` (its first character
      was selected by the dispatch). */
  function NumberLength(s: seq<Byte>): (n: nat)
    requires s != []
    ensures 1 <= n <= |s|
  {
    1 + NumberTail(s[1..], s[0] != '.' as int)
  }

  /** One iteration of the number loop. */
  lemma NumberStep(s: seq<Byte>, dotNotRead: bool)
    requires s != [] && (IsDigit(s[0]) || (dotNotRead && s[0] == '.' as int))
    ensures NumberTail(s, dotNotRead) == 1 + NumberTail(s[1..], dotNotRead && s[0] != '.' as int)
  {
  }

  // ---------------------------------------------------------------- words

  /** readString (base class, assumed): a maximal run of regular characters. */
  function RegularLength(s: seq<Byte>): (n: nat)
    ensures n <= |s|
  {
    if s != [] && IsRegular(s[0]) then 1 + RegularLength(s[1..]) else 0
  }

  /** The bytes that stop readOperator's loop. */
  predicate EndsOperator(c: int)
  {
    IsWhitespace(c) || IsClosing(c) || c == '[' as int || c == '<' as int
    || c == '(' as int || c == '/' as int || IsDigit(c)
  }

  /** readOperator's loop, with the d0/d1 exception for Type 3 glyph operators. */
  function OperatorLength(s: seq<Byte>): (n: nat)
    ensures n <= |s|
  {
    if s == [] || EndsOperator(s[0]) then 0
    else if s[0] == 'd' as int && |s| > 1 && (s[1] == '0' as int || s[1] == '1' as int)
    then 2 + OperatorLength(s[2..])
    else 1 + OperatorLength(s[1..])
  }

  /** One iteration of readOperator's loop. */
  lemma OperatorStep(s: seq<Byte>)
    requires s != [] && !EndsOperator(s[0])
    ensures s[0] == 'd' as int && |s| > 1 && (s[1] == '0' as int || s[1] == '1' as int) ==>
              OperatorLength(s) == 2 + OperatorLength(s[2..])
    ensures !(s[0] == 'd' as int && |s| > 1 && (s[1] == '0' as int || s[1] == '1' as int)) ==>
              OperatorLength(s) == 1 + OperatorLength(s[1..])
  {
  }

  /** One iteration of readString's loop. */
  lemma RegularStep(s: seq<Byte>)
    requires s != [] && IsRegular(s[0])
    ensures RegularLength(s) == 1 + RegularLength(s[1..])
  {
  }

  // ---------------------------------------------------------------- inline image

  /** The payload loop: (twoBytesAgo, lastByte, currentByte) is the window,
      `s` the bytes not yet read. Returns the bytes written and what is left. */
  function ImageScan(two: int, last: int, cur: int, s: seq<Byte>): (r: (seq<Byte>, seq<Byte>))
    requires -1 <= last < 256 && -1 <= cur < 256
    requires last == -1 || cur == -1 ==> s == []
    ensures IsSuffix(r.1, s)
    decreases |s|
  {
    if (IsWhitespace(two) && last == 'E' as int && cur == 'I' as int && IsWhitespace(First(s))) || s == []
    then ([], s)
    else
      var r' := ImageScan(last, cur, s[0], s[1..]);
      ([last as Byte] + r'.0, r'.1)
  }

  /** One iteration of the payload loop. */
  lemma ImageScanStep(two: int, last: int, cur: int, s: seq<Byte>)
    requires -1 <= last < 256 && -1 <= cur < 256
    requires last == -1 || cur == -1 ==> s == []
    requires !(IsWhitespace(two) && last == 'E' as int && cur == 'I' as int && IsWhitespace(First(s))) && s != []
    ensures 0 <= last
    ensures ImageScan(two, last, cur, s).0 == [last as Byte] + ImageScan(last, cur, s[0], s[1..]).0
    ensures ImageScan(two, last, cur, s).1 == ImageScan(last, cur, s[0], s[1..]).1
  {
  }

  /** The payload loop at its end: nothing more is taken. */
  lemma ImageScanStop(two: int, last: int, cur: int, s: seq<Byte>)
    requires -1 <= last < 256 && -1 <= cur < 256
    requires last == -1 || cur == -1 ==> s == []
    requires (IsWhitespace(two) && last == 'E' as int && cur == 'I' as int && IsWhitespace(First(s))) || s == []
    ensures ImageScan(two, last, cur, s).0 == [] && ImageScan(two, last, cur, s).1 == s
  {
  }

  /** What follows "ID" once the one white-space byte after it, if any, is dropped. */
  function ImageStart(t: seq<Byte>): (u: seq<Byte>)
    ensures IsSuffix(u, t) && |t| - 1 <= |u|
  {
    if t != [] && IsWhitespace(t[0]) then t[1..] else t
  }

  /** What follows "ID": the payload is scanned from the first two bytes of
      ImageStart(t) on, and 'E' and 'I' are pushed back. Returns the payload
      and what is left. */
  function ImageBody(t: seq<Byte>): (r: (seq<Byte>, seq<Byte>))
    ensures |r.1| <= |t| + 2
  {
    var u := ImageStart(t);
    var scanned := ImageScan(0, First(u), First(Tail(u)), Tail(Tail(u)));
    (scanned.0, [69 as Byte] + ([73 as Byte] + scanned.1))
  }

  /** ImageBody once its window has been read: `scanned` is the payload
      loop's outcome, and 'I' and then 'E' are pushed back. */
  lemma ImageBodyParts(t: seq<Byte>, two: int, last: int, cur: int, s: seq<Byte>)
    requires var u := ImageStart(t); two == 0 && last == First(u) && cur == First(Tail(u)) && s == Tail(Tail(u))
    ensures ImageBody(t).0 == ImageScan(two, last, cur, s).0
    ensures ImageBody(t).1 == [69 as Byte] + ([73 as Byte] + ImageScan(two, last, cur, s).1)
  {
  }

  /** The 'I' branch on the bytes `s` starting at the 'I': reads two bytes,
      which must be "ID", then the image data. */
  function InlineImage(s: seq<Byte>): (r: Result<(seq<Byte>, seq<Byte>), ScanError>)
    ensures r.Ok? ==> Measure(r.value.1) < Measure(s)
  {
    if First(s) != 'I' as int || First(Tail(s)) != 'D' as int then Err(ExpectedId)
    else Ok(ImageBody(s[2..]))
  }

  // ---------------------------------------------------------------- one token

  function AngleToken(s: seq<Byte>, lastBI: Option<Token>, ext: Collaborators): (r: Step)
    requires Progressive(ext) && s != []
    ensures r.Produced? ==> |r.rest| < |s|
    ensures !r.Stop?
    ensures r.Produced? ==> r.lastBI == lastBI
  {
    if First(Tail(s)) == '<' as int then
      var dict := ext.parseDictionary(s);
      assert Consumes(dict, s);
      match dict
      case Rejected => Failed(Unparsable)
      case Parsed(d, n) =>
        var t := SkipWs(s[n..]);
        if First(t) == 's' as int then
          var stream := ext.parseStream(d, t);
          assert Consumes(stream, t);
          match stream
          case Rejected => Failed(Unparsable)
          case Parsed(bytes, m) => Produced(Stream(d, bytes), t[m..], lastBI)
        else Produced(Dictionary(d), t, lastBI)
    else
      var str := ext.parseString(s);
      assert Consumes(str, s);
      match str
      case Rejected => Failed(Unparsable)
      case Parsed(bytes, n) => Produced(Str(bytes), s[n..], lastBI)
  }

  function ArrayToken(s: seq<Byte>, lastBI: Option<Token>, ext: Collaborators): (r: Step)
    requires Progressive(ext)
    ensures r.Produced? ==> |r.rest| < |s|
    ensures !r.Stop?
    ensures r.Produced? ==> r.lastBI == lastBI
  {
    var arr := ext.parseArray(s);
    assert Consumes(arr, s);
    match arr
    case Rejected => Failed(Unparsable)
    case Parsed(items, n) => Produced(Array(items), s[n..], lastBI)
  }

  function StringToken(s: seq<Byte>, lastBI: Option<Token>, ext: Collaborators): (r: Step)
    requires Progressive(ext)
    ensures r.Produced? ==> |r.rest| < |s|
    ensures !r.Stop?
    ensures r.Produced? ==> r.lastBI == lastBI
  {
    var str := ext.parseString(s);
    assert Consumes(str, s);
    match str
    case Rejected => Failed(Unparsable)
    case Parsed(bytes, n) => Produced(Str(bytes), s[n..], lastBI)
  }

  function NameToken(s: seq<Byte>, lastBI: Option<Token>, ext: Collaborators): (r: Step)
    requires Progressive(ext)
    ensures r.Produced? ==> |r.rest| < |s|
    ensures !r.Stop?
    ensures r.Produced? ==> r.lastBI == lastBI
  {
    var name := ext.parseName(s);
    assert Consumes(name, s);
    match name
    case Rejected => Failed(Unparsable)
    case Parsed(n, used) => Produced(Name(n), s[used..], lastBI)
  }

  /** The 'n', 't', 'f' and 'R' branches. */
  function KeywordToken(s: seq<Byte>, lastBI: Option<Token>): (r: Step)
    requires s != [] && IsRegular(s[0])
    ensures r.Produced? && |r.rest| < |s|
    ensures r.Produced? ==> r.lastBI == lastBI
  {
    var t := SkipWs(s);
    var n := RegularLength(t);
    var w := Chars(t[..n]);
    var tok :=
      if s[0] == 'n' as int then (if w == "null" then Null else Op(w))
      else if s[0] == 'R' as int then (if w == "R" then Reference else Op(w))
      else if w == "true" then Bool(true)
      else if w == "false" then Bool(false)
      else Op(w);
    Produced(tok, t[n..], lastBI)
  }

  function NumberToken(s: seq<Byte>, lastBI: Option<Token>, ext: Collaborators): (r: Step)
    requires s != []
    ensures r.Produced? ==> |r.rest| < |s|
    ensures !r.Stop?
    ensures r.Produced? ==> r.lastBI == lastBI
  {
    var n := NumberLength(s);
    var literal := Chars(s[..n]);
    if ext.isNumber(literal) then Produced(Number(literal), s[n..], lastBI)
    else Failed(MalformedNumber(literal))
  }

  function InlineImageToken(s: seq<Byte>, lastBI: Option<Token>): (r: Step)
    ensures r.Produced? ==> Measure(r.rest) < Measure(s)
    ensures !r.Stop?
    ensures r.Produced? ==> r.lastBI == lastBI
  {
    match InlineImage(s)
    case Err(e) => Failed(e)
    case Ok(scanned) => Produced(Operator("ID", None, Some(scanned.0)), scanned.1, lastBI)
  }

  /** The default branch: an operator word, or null for a blank one. */
  function OperatorToken(s: seq<Byte>, lastBI: Option<Token>): (r: Step)
    ensures r.Produced? ==> |r.rest| < |s|
    ensures r.Stop? ==> IsSuffix(r.rest, s)
    ensures r.Produced? ==> r.lastBI == lastBI
  {
    var t := SkipWs(s);
    var n := OperatorLength(t);
    var w := Chars(t[..n]);
    if Blank(w) then Stop(t[n..]) else Produced(Op(w), t[n..], lastBI)
  }

  /** The word the 'B' branch reads starts at the 'B' itself, is not empty,
      and is "BI" only when it is two bytes long. */
  lemma BeginWord(s: seq<Byte>)
    requires s != [] && s[0] == 'B' as int
    ensures SkipWs(s) == s && 1 <= RegularLength(s)
    ensures Chars(s[..RegularLength(s)]) == "BI" ==> RegularLength(s) == 2
    ensures Measure(s[RegularLength(s)..]) < Measure(s)
  {
    SuffixMeasure(s[RegularLength(s)..], s);
  }

  /** setImageData on the operator lastBIToken refers to. */
  function WithImageData(lastBI: Option<Token>, data: Option<seq<Byte>>): Option<Token>
  {
    match lastBI
    case Some(Operator(op, params, _)) => Some(Operator(op, params, data))
    case _ => lastBI
  }

  /** parseNextToken on the bytes `rest`, `lastBI` being lastBIToken. */
  function Next(rest: seq<Byte>, lastBI: Option<Token>, ext: Collaborators): (r: Step)
    requires Progressive(ext)
    ensures r.Produced? ==> Measure(r.rest) < Measure(rest)
    ensures r.Stop? ==> IsSuffix(r.rest, rest)
    decreases Measure(rest), 1
  {
    var s := SkipWs(rest);
    SuffixMeasure(s, rest);
    var c := First(s);
    if c == -1 || c == 255 then Stop(s)
    else if c == '<' as int then AngleToken(s, lastBI, ext)
    else if c == '[' as int then ArrayToken(s, lastBI, ext)
    else if c == '(' as int then StringToken(s, lastBI, ext)
    else if c == '/' as int then NameToken(s, lastBI, ext)
    else if c == 'n' as int || c == 't' as int || c == 'f' as int || c == 'R' as int then KeywordToken(s, lastBI)
    else if IsDigit(c) || c == '-' as int || c == '+' as int || c == '.' as int then NumberToken(s, lastBI, ext)
    else if c == 'B' as int then BeginImageToken(s, lastBI, ext)
    else if c == 'I' as int then InlineImageToken(s, lastBI)
    else if c == ']' as int then Produced(Null, s[1..], lastBI)
    else
      OperatorToken(s, lastBI)
  }

  /** The 'B' branch: an operator word, which for BI is followed by the
      image parameters and ended by the operator whose image data BI gets. */
  function BeginImageToken(s: seq<Byte>, lastBI: Option<Token>, ext: Collaborators): (r: Step)
    requires Progressive(ext) && s != [] && s[0] == 'B' as int
    ensures r.Produced? ==> Measure(r.rest) < Measure(s)
    ensures !r.Stop?
    decreases Measure(s), 0
  {
    BeginWord(s);
    var t := SkipWs(s);
    var n := RegularLength(t);
    var w := Chars(t[..n]);
    if w != "BI" then
      Produced(Op(w), t[n..], lastBI)
    else
      match ImageParameters(t[n..], Empty(), Some(Operator("BI", Some(Empty()), None)), ext)
      case ParamsFailed(e) => Failed(e)
      case ParamsDone(op, data, r, lb, params) =>
        if op == "BI" then Produced(Operator("BI", Some(params), None), r, WithImageData(lb, data))
        else Produced(Operator("BI", Some(params), data), r, Some(Operator("BI", Some(params), data)))
  }

  datatype ParamsResult =
    | ParamsDone(termOp: string, termData: Option<seq<Byte>>, rest: seq<Byte>,
                 lastBI: Option<Token>, params: Dict<Token>)
    | ParamsFailed(error: ScanError)

  /** The loop of the BI branch: Name/value pairs go into `params` until the
      first token that is not a Name, whose operator name and image data end
      the loop. */
  function ImageParameters(rest: seq<Byte>, params: Dict<Token>, lastBI: Option<Token>,
                           ext: Collaborators): (r: ParamsResult)
    requires Progressive(ext)
    ensures r.ParamsDone? ==> Measure(r.rest) < Measure(rest)
    decreases Measure(rest), 2
  {
    match Next(rest, lastBI, ext)
    case Failed(e) => ParamsFailed(e)
    case Stop(_) => ParamsFailed(MissingImageData)
    case Produced(t, r1, lb1) =>
      if t.Name? then
        match Next(r1, lb1, ext)
        case Failed(e) => ParamsFailed(e)
        case Stop(r2) =>
          SuffixMeasure(r2, r1);
          ImageParameters(r2, params.RemoveItem(t.name), lb1, ext)
        case Produced(v, r2, lb2) =>
          if v.Operator? then ParamsFailed(OperatorAsValue)
          else ImageParameters(r2, params.SetItem(t.name, v), lb2, ext)
      else if t.Operator? then ParamsDone(t.op, t.imageData, r1, lb1, params)
      else ParamsFailed(NotAnOperator)
  }

  /** ImageParameters after a Name `key`: the `value` that follows decides. */
  lemma ImageParametersPair(rest: seq<Byte>, params: Dict<Token>, lastBI: Option<Token>, ext: Collaborators,
                            key: Step, value: Step)
    requires Progressive(ext)
    requires key == Next(rest, lastBI, ext) && key.Produced? && key.tok.Name?
    requires value == Next(key.rest, key.lastBI, ext)
    ensures value.Failed? ==> ImageParameters(rest, params, lastBI, ext) == ParamsFailed(value.error)
    ensures value.Stop? ==>
              ImageParameters(rest, params, lastBI, ext)
              == ImageParameters(value.rest, params.RemoveItem(key.tok.name), key.lastBI, ext)
    ensures value.Produced? && value.tok.Operator? ==>
              ImageParameters(rest, params, lastBI, ext) == ParamsFailed(OperatorAsValue)
    ensures value.Produced? && !value.tok.Operator? ==>
              ImageParameters(rest, params, lastBI, ext)
              == ImageParameters(value.rest, params.SetItem(key.tok.name, value.tok), value.lastBI, ext)
  {
  }

  /** ImageParameters on a token `t` that is not a Name. */
  lemma ImageParametersEnd(rest: seq<Byte>, params: Dict<Token>, lastBI: Option<Token>, ext: Collaborators,
                           t: Step)
    requires Progressive(ext)
    requires t == Next(rest, lastBI, ext) && !(t.Produced? && t.tok.Name?)
    ensures t.Failed? ==> ImageParameters(rest, params, lastBI, ext) == ParamsFailed(t.error)
    ensures t.Stop? ==> ImageParameters(rest, params, lastBI, ext) == ParamsFailed(MissingImageData)
    ensures t.Produced? && t.tok.Operator? ==>
              ImageParameters(rest, params, lastBI, ext) == ParamsDone(t.tok.op, t.tok.imageData, t.rest, t.lastBI, params)
    ensures t.Produced? && !t.tok.Operator? ==>
              ImageParameters(rest, params, lastBI, ext) == ParamsFailed(NotAnOperator)
  {
  }

  // ---------------------------------------------------------------- the driver

  datatype Run = Run(tokens: seq<Token>, error: Option<ScanError>)

  /** parse: the tokens of successive parseNextToken calls up to the first
      null, and the exception that stopped it, if any. */
  function ParseAll(rest: seq<Byte>, lastBI: Option<Token>, ext: Collaborators): Run
    requires Progressive(ext)
    decreases Measure(rest)
  {
    match Next(rest, lastBI, ext)
    case Produced(t, r, lb) =>
      var run := ParseAll(r, lb, ext);
      Run([t] + run.tokens, run.error)
    case Stop(_) => Run([], None)
    case Failed(e) => Run([], Some(e))
  }

  /** ParseAll after one call of parseNextToken that gave `step`. */
  lemma ParseAllStep(rest: seq<Byte>, lastBI: Option<Token>, ext: Collaborators, step: Step)
    requires Progressive(ext) && step == Next(rest, lastBI, ext)
    ensures step.Produced? ==>
              ParseAll(rest, lastBI, ext).tokens == [step.tok] + ParseAll(step.rest, step.lastBI, ext).tokens
              && ParseAll(rest, lastBI, ext).error == ParseAll(step.rest, step.lastBI, ext).error
    ensures step.Stop? ==> ParseAll(rest, lastBI, ext) == Run([], None)
    ensures step.Failed? ==> ParseAll(rest, lastBI, ext) == Run([], Some(step.error))
  {
  }

  /** ParseAll seen from parse's loop, which has collected `objs` so far:
      after a null or an exception nothing more is collected; after a token
      the token is appended and the rest of the run is the same. */
  lemma ParseAllCollect(rest: seq<Byte>, lastBI: Option<Token>, ext: Collaborators, step: Step, objs: seq<Token>)
    requires Progressive(ext) && step == Next(rest, lastBI, ext)
    ensures !step.Produced? ==>
              && objs + ParseAll(rest, lastBI, ext).tokens == objs
              && ParseAll(rest, lastBI, ext).error == (if step.Stop? then None else Some(step.error))
    ensures step.Produced? ==>
              && (objs + [step.tok]) + ParseAll(step.rest, step.lastBI, ext).tokens
                 == objs + ParseAll(rest, lastBI, ext).tokens
              && ParseAll(step.rest, step.lastBI, ext).error == ParseAll(rest, lastBI, ext).error
  {
    ParseAllStep(rest, lastBI, ext, step);
    if step.Produced? {
      var next := ParseAll(step.rest, step.lastBI, ext);
      assert (objs + [step.tok]) + next.tokens == objs + ([step.tok] + next.tokens);
    } else {
      assert objs + [] == objs;
    }
  }
}
