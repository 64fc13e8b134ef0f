/** The tokens the content-stream parser produces, the errors it raises, and
    the parsing routines of its base class that it calls but that are not part
    of this model. */
module ContentTokens {
  import opened Wrappers
  import opened Lexical
  import opened CosDictionary

  datatype Token =
    | Bool(b: bool)
    /** A numeric literal as it was read; converting it to a number is the
        collaborator `number`'s business. */
    | Number(literal: string)
    | Name(name: string)
    | Str(bytes: seq<Byte>)
    | Array(items: seq<Token>)
    | Dictionary(dict: Dict<Token>)
    | Stream(dict: Dict<Token>, data: seq<Byte>)
    | Null
    /** The COSObject(null) placeholder produced for a bare R. */
    | Reference
    /** A PDFOperator with its optional image parameters and image data. */
    | Operator(op: string, imageParams: Option<Dict<Token>>, imageData: Option<seq<Byte>>)

  function Op(w: string): Token
  {
    Operator(w, None, None)
  }

  /** The outcome of a collaborating parser: its value and how many bytes it
      consumed, or a failure (an IOException). */
  datatype Parsed<T> = Parsed(value: T, used: nat) | Rejected

  /** The base-class parsing routines, over the bytes still to be read:
      parseCOSDictionary, parseCOSStream (given the dictionary), parseCOSArray,
      parseCOSString (both the hex and the literal form), parseCOSName, and
      whether COSNumber.get accepts a literal. */
  datatype Collaborators = Collaborators(
    parseDictionary: seq<Byte> -> Parsed<Dict<Token>>,
    parseStream: (Dict<Token>, seq<Byte>) -> Parsed<seq<Byte>>,
    parseArray: seq<Byte> -> Parsed<seq<Token>>,
    parseString: seq<Byte> -> Parsed<seq<Byte>>,
    parseName: seq<Byte> -> Parsed<string>,
    isNumber: string -> bool)

  /** What the model assumes of a collaborator: it consumes at least the byte
      that selected it and no more than there is. */
  ghost predicate Consumes<T>(p: Parsed<T>, s: seq<Byte>)
  {
    p.Parsed? ==> 1 <= p.used <= |s|
  }

  ghost predicate Progressive(ext: Collaborators)
  {
    && (forall s :: Consumes(ext.parseDictionary(s), s))
    && (forall d, s :: Consumes(ext.parseStream(d, s), s))
    && (forall s :: Consumes(ext.parseArray(s), s))
    && (forall s :: Consumes(ext.parseString(s), s))
    && (forall s :: Consumes(ext.parseName(s), s))
  }

  datatype ScanError =
    /** "Error: Expected operator 'ID'". */
    | ExpectedId
    /** COSNumber.get refused the literal. */
    | MalformedNumber(literal: string)
    /** A collaborating parser failed. */
    | Unparsable
    /** The BI parameter loop ended on null: getImageData on null. */
    | MissingImageData
    /** The BI parameter loop ended on a token that is not an operator. */
    | NotAnOperator
    /** An operator was read where a parameter value (a COSBase) was expected. */
    | OperatorAsValue

  /** One call of parseNextToken: a token with the bytes left and the new
      lastBIToken; null (with the bytes left); or an exception. */
  datatype Step =
    | Produced(tok: Token, rest: seq<Byte>, lastBI: Option<Token>)
    | Stop(rest: seq<Byte>)
    | Failed(error: ScanError)
}
