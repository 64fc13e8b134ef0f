/** PDFStreamParser: reads tokens from a push-back byte source, one per call
    of parseNextToken, and collects them in streamObjects. Every method is
    proved to compute the matching function of module ContentScan. */
module StreamParser {
  import opened Wrappers
  import opened Lexical
  import opened CosDictionary
  import opened ContentTokens
  import opened ContentScan
  import opened PushbackSource

  class PdfStreamParser {
    const src: Source
    /** The base-class parsing routines that are not part of this model. */
    const ext: Collaborators
    var streamObjects: seq<Token>
    var lastBIToken: Option<Token>

    ghost predicate Valid()
      reads this, src
    {
      src.Valid() && Progressive(ext)
    }

    constructor (source: Source, collaborators: Collaborators)
      requires source.Valid() && Progressive(collaborators)
      ensures Valid() && src == source && ext == collaborators
      ensures streamObjects == [] && lastBIToken == None
    {
      src := source;
      ext := collaborators;
      streamObjects := [];
      lastBIToken := None;
    }

    /** getTokens: the list parse fills. */
    function GetTokens(): (tokens: seq<Token>)
      reads this
      ensures tokens == streamObjects
    {
      streamObjects
    }

    /** parse: collects tokens until parseNextToken returns null or throws. */
    method Parse() returns (error: Option<ScanError>)
      requires Valid()
      modifies this, src
      ensures Valid()
      ensures streamObjects == old(streamObjects) + ParseAll(old(src.Rest()), old(lastBIToken), ext).tokens
      ensures error == ParseAll(old(src.Rest()), old(lastBIToken), ext).error
    {
      ghost var goal := ParseAll(src.Rest(), lastBIToken, ext);
      while true
        invariant Valid()
        invariant old(streamObjects) + goal.tokens == streamObjects + ParseAll(src.Rest(), lastBIToken, ext).tokens
        invariant goal.error == ParseAll(src.Rest(), lastBIToken, ext).error
        decreases Measure(src.Rest())
      {
        var more;
        more, error := CollectNextToken();
        if !more {
          return;
        }
      }
    }

    /** One turn of parse's loop: the token parseNextToken returns is
        appended, and `more` tells whether there was one. */
    method CollectNextToken() returns (more: bool, error: Option<ScanError>)
      requires Valid()
      modifies this, src
      ensures Valid()
      ensures var run := ParseAll(old(src.Rest()), old(lastBIToken), ext);
              !more ==> streamObjects == old(streamObjects) + run.tokens && error == run.error
      ensures var run := ParseAll(old(src.Rest()), old(lastBIToken), ext);
              var next := ParseAll(src.Rest(), lastBIToken, ext);
              more ==> && Measure(src.Rest()) < Measure(old(src.Rest()))
                       && streamObjects + next.tokens == old(streamObjects) + run.tokens
                       && next.error == run.error
    {
      ghost var rest, lastBI := src.Rest(), lastBIToken;
      var token := ParseNextToken();
      ParseAllCollect(rest, lastBI, ext, token, streamObjects);
      if !token.Produced? {
        return false, if token.Stop? then None else Some(token.error);
      }
      streamObjects := streamObjects + [token.tok];
      return true, None;
    }

    /** parseNextToken. */
    method ParseNextToken() returns (r: Step)
      requires Valid()
      modifies this, src
      decreases Measure(src.Rest()), 1
      ensures Valid() && streamObjects == old(streamObjects)
      ensures r == Next(old(src.Rest()), old(lastBIToken), ext)
      ensures r.Produced? ==> src.Rest() == r.rest && lastBIToken == r.lastBI
      ensures r.Stop? ==> src.Rest() == r.rest && lastBIToken == old(lastBIToken)
    {
      SkipSpaces();
      ghost var s := src.Rest();
      SuffixMeasure(s, old(src.Rest()));
      var nextByte := src.Peek();
      if nextByte == -1 || nextByte == 255 {
        return Stop(src.Rest());
      }
      if nextByte == '<' as int {
        r := ParseAngle();
      } else if nextByte == '[' as int {
        r := ParseArray();
      } else if nextByte == '(' as int {
        r := ParseString();
      } else if nextByte == '/' as int {
        r := ParseName();
      } else if nextByte == 'n' as int || nextByte == 't' as int || nextByte == 'f' as int || nextByte == 'R' as int {
        r := ParseKeyword();
      } else if IsDigit(nextByte) || nextByte == '-' as int || nextByte == '+' as int || nextByte == '.' as int {
        r := ParseNumber();
      } else if nextByte == 'B' as int {
        r := ParseBeginImage();
      } else if nextByte == 'I' as int {
        r := ParseInlineImage();
      } else if nextByte == ']' as int {
        var _ := src.Read();
        r := Produced(Null, src.Rest(), lastBIToken);
      } else {
        r := ParseOperator();
      }
    }

    /** The default branch: an operator, or null when its word is blank. */
    method ParseOperator() returns (r: Step)
      requires Valid()
      modifies src
      ensures Valid()
      ensures r == OperatorToken(old(src.Rest()), lastBIToken)
      ensures src.Rest() == r.rest
    {
      var operator := ReadOperator();
      if Blank(operator) {
        r := Stop(src.Rest());
      } else {
        r := Produced(Op(operator), src.Rest(), lastBIToken);
      }
    }

    /** The 'B' branch: an operator, and for BI its image parameters and data. */
    method ParseBeginImage() returns (r: Step)
      requires Valid() && src.Rest() != [] && src.Rest()[0] == 'B' as int
      modifies this, src
      decreases Measure(src.Rest()), 0
      ensures Valid() && streamObjects == old(streamObjects)
      ensures r == BeginImageToken(old(src.Rest()), old(lastBIToken), ext)
      ensures r.Produced? ==> src.Rest() == r.rest && lastBIToken == r.lastBI
    {
      var next := ReadString();
      SuffixMeasure(src.Rest(), old(src.Rest()));
      if next != "BI" {
        return Produced(Op(next), src.Rest(), lastBIToken);
      }
      lastBIToken := Some(Operator("BI", Some(Empty()), None));
      var loop := CollectImageParameters();
      match loop
      case ParamsFailed(e) =>
        r := Failed(e);
      case ParamsDone(op, data, _, _, params) =>
        if op == "BI" {
          lastBIToken := WithImageData(lastBIToken, data);
          r := Produced(Operator("BI", Some(params), None), src.Rest(), lastBIToken);
        } else {
          lastBIToken := Some(Operator("BI", Some(params), data));
          r := Produced(Operator("BI", Some(params), data), src.Rest(), lastBIToken);
        }
    }

    /** The loop of the BI branch. */
    method CollectImageParameters() returns (r: ParamsResult)
      requires Valid()
      modifies this, src
      decreases Measure(src.Rest()), 2
      ensures Valid() && streamObjects == old(streamObjects)
      ensures r == ImageParameters(old(src.Rest()), Empty(), old(lastBIToken), ext)
      ensures r.ParamsDone? ==> src.Rest() == r.rest && lastBIToken == r.lastBI
    {
      var imageParams := Empty();
      ghost var goal := ImageParameters(src.Rest(), imageParams, lastBIToken, ext);
      ghost var entry := src.Rest();
      ghost var before, beforeBI := src.Rest(), lastBIToken;
      var nextToken := ParseNextToken();
      while nextToken.Produced? && nextToken.tok.Name?
        invariant Valid() && streamObjects == old(streamObjects)
        invariant Measure(before) <= Measure(entry)
        invariant goal == ImageParameters(before, imageParams, beforeBI, ext)
        invariant nextToken == Next(before, beforeBI, ext)
        invariant nextToken.Produced? ==> src.Rest() == nextToken.rest && lastBIToken == nextToken.lastBI
        decreases Measure(before)
      {
        var key := nextToken;
        var value := ParseNextToken();
        ImageParametersPair(before, imageParams, beforeBI, ext, key, value);
        match value {
          case Failed(e) =>
            return ParamsFailed(e);
          case Stop(_) =>
            SuffixMeasure(src.Rest(), key.rest);
            imageParams := imageParams.RemoveItem(key.tok.name);
          case Produced(v, _, _) =>
            if v.Operator? {
              return ParamsFailed(OperatorAsValue);
            }
            imageParams := imageParams.SetItem(key.tok.name, v);
        }
        before, beforeBI := src.Rest(), lastBIToken;
        nextToken := ParseNextToken();
      }
      ImageParametersEnd(before, imageParams, beforeBI, ext, nextToken);
      match nextToken
      case Failed(e) =>
        r := ParamsFailed(e);
      case Stop(_) =>
        r := ParamsFailed(MissingImageData);
      case Produced(t, _, _) =>
        if t.Operator? {
          r := ParamsDone(t.op, t.imageData, src.Rest(), lastBIToken, imageParams);
        } else {
          r := ParamsFailed(NotAnOperator);
        }
    }

    /** skipSpaces (base class, assumed). */
    method SkipSpaces()
      requires src.Valid()
      modifies src
      ensures src.Valid() && src.Rest() == SkipWs(old(src.Rest()))
    {
      var c := src.Peek();
      while IsWhitespace(c)
        invariant src.Valid() && c == First(src.Rest())
        invariant SkipWs(src.Rest()) == SkipWs(old(src.Rest()))
        decreases |src.Rest()|
      {
        var _ := src.Read();
        c := src.Peek();
      }
    }

    /** readString (base class, assumed): the next run of regular characters. */
    method ReadString() returns (w: string)
      requires src.Valid()
      modifies src
      ensures src.Valid()
      ensures w == Chars(SkipWs(old(src.Rest()))[..RegularLength(SkipWs(old(src.Rest())))])
      ensures src.Rest() == SkipWs(old(src.Rest()))[RegularLength(SkipWs(old(src.Rest())))..]
    {
      SkipSpaces();
      w := ReadRegular();
    }

    /** The loop of readString, after skipSpaces. */
    method ReadRegular() returns (w: string)
      requires src.Valid()
      modifies src
      ensures src.Valid()
      ensures w == Chars(old(src.Rest())[..RegularLength(old(src.Rest()))])
      ensures src.Rest() == old(src.Rest())[RegularLength(old(src.Rest()))..]
    {
      ghost var t := src.Rest();
      var buffer: seq<Byte> := [];
      var c := src.Peek();
      while IsRegular(c)
        invariant src.Valid() && |buffer| <= |t|
        invariant buffer == t[..|buffer|] && src.Rest() == t[|buffer|..]
        invariant c == First(src.Rest())
        invariant RegularLength(t) == |buffer| + RegularLength(src.Rest())
        decreases |src.Rest()|
      {
        RegularStep(src.Rest());
        PrefixStep(t, |buffer|);
        var _ := src.Read();
        buffer := buffer + [c as Byte];
        c := src.Peek();
      }
      w := Chars(buffer);
    }

    /** readOperator. */
    method ReadOperator() returns (w: string)
      requires src.Valid()
      modifies src
      ensures src.Valid()
      ensures w == Chars(SkipWs(old(src.Rest()))[..OperatorLength(SkipWs(old(src.Rest())))])
      ensures src.Rest() == SkipWs(old(src.Rest()))[OperatorLength(SkipWs(old(src.Rest())))..]
    {
      SkipSpaces();
      w := ReadOperatorWord();
    }

    /** The loop of readOperator, after skipSpaces. */
    method ReadOperatorWord() returns (w: string)
      requires src.Valid()
      modifies src
      ensures src.Valid()
      ensures w == Chars(old(src.Rest())[..OperatorLength(old(src.Rest()))])
      ensures src.Rest() == old(src.Rest())[OperatorLength(old(src.Rest()))..]
    {
      ghost var t := src.Rest();
      var buffer: seq<Byte> := [];
      var nextChar := src.Peek();
      // EndsOperator: white-space, a closing delimiter, '[', '<', '(', '/' or a digit
      while nextChar != -1 && !EndsOperator(nextChar)
        invariant src.Valid() && |buffer| <= |t|
        invariant buffer == t[..|buffer|] && src.Rest() == t[|buffer|..]
        invariant nextChar == First(src.Rest())
        invariant OperatorLength(t) == |buffer| + OperatorLength(src.Rest())
        decreases |src.Rest()|
      {
        var chunk := ReadOperatorChunk();
        ChunkStep(t, |buffer|, chunk);
        buffer := buffer + chunk;
        nextChar := src.Peek();
      }
      w := Chars(buffer);
    }

    /** One round of the loop of readOperator: a character, and the '0' or
        '1' that follows a 'd'. */
    method ReadOperatorChunk() returns (chunk: seq<Byte>)
      requires src.Valid() && src.Rest() != [] && !EndsOperator(src.Rest()[0])
      modifies src
      ensures src.Valid() && 1 <= |chunk| <= |old(src.Rest())|
      ensures chunk == old(src.Rest())[..|chunk|] && src.Rest() == old(src.Rest())[|chunk|..]
      ensures OperatorLength(old(src.Rest())) == |chunk| + OperatorLength(src.Rest())
    {
      ghost var t := src.Rest();
      OperatorStep(t);
      var currentChar := src.Read();
      var nextChar := src.Peek();
      chunk := [currentChar as Byte];
      if currentChar == 'd' as int && (nextChar == '0' as int || nextChar == '1' as int) {
        var digit := src.Read();
        chunk := chunk + [digit as Byte];
        assert t[..2] == chunk && src.Rest() == t[2..];
      } else {
        assert t[..1] == chunk && src.Rest() == t[1..];
      }
    }

    /** The number branch. */
    method ParseNumber() returns (r: Step)
      requires Valid() && src.Rest() != []
      modifies src
      ensures Valid()
      ensures r == NumberToken(old(src.Rest()), lastBIToken, ext)
      ensures r.Produced? ==> src.Rest() == r.rest
    {
      ghost var t := src.Rest();
      var c := src.Read();
      var tail := ReadDigits(c != '.' as int);
      var buf: seq<Byte> := [c as Byte] + tail;
      assert buf == t[..NumberLength(t)] && src.Rest() == t[NumberLength(t)..];
      var literal := Chars(buf);
      if ext.isNumber(literal) {
        r := Produced(Number(literal), src.Rest(), lastBIToken);
      } else {
        r := Failed(MalformedNumber(literal));
      }
    }

    /** The loop of the number branch: digits, and one '.' while `dotNotRead`. */
    method ReadDigits(dotNotRead: bool) returns (buf: seq<Byte>)
      requires src.Valid()
      modifies src
      ensures src.Valid()
      ensures var n := NumberTail(old(src.Rest()), dotNotRead);
              buf == old(src.Rest())[..n] && src.Rest() == old(src.Rest())[n..]
    {
      ghost var t := src.Rest();
      var dot := dotNotRead;
      buf := [];
      var c := src.Peek();
      while IsDigit(c) || (dot && c == '.' as int)
        invariant src.Valid() && |buf| <= |t|
        invariant buf == t[..|buf|] && src.Rest() == t[|buf|..]
        invariant c == First(src.Rest())
        invariant NumberTail(t, dotNotRead) == |buf| + NumberTail(src.Rest(), dot)
        decreases |src.Rest()|
      {
        NumberStep(src.Rest(), dot);
        PrefixStep(t, |buf|);
        buf := buf + [c as Byte];
        var _ := src.Read();
        if dot && c == '.' as int {
          dot := false;
        }
        c := src.Peek();
      }
    }

    /** The 'n', 't', 'f' and 'R' branches. */
    method ParseKeyword() returns (r: Step)
      requires Valid() && src.Rest() != [] && IsRegular(src.Rest()[0])
      modifies src
      ensures Valid()
      ensures r == KeywordToken(old(src.Rest()), lastBIToken)
      ensures src.Rest() == r.rest
    {
      var c := src.Peek();
      var word := ReadString();
      var tok;
      if c == 'n' as int {
        tok := if word == "null" then Null else Op(word);
      } else if c == 'R' as int {
        tok := if word == "R" then Reference else Op(word);
      } else if word == "true" {
        tok := Bool(true);
      } else if word == "false" {
        tok := Bool(false);
      } else {
        tok := Op(word);
      }
      r := Produced(tok, src.Rest(), lastBIToken);
    }

    /** The '<' branch: a dictionary, possibly followed by a stream, or a hex string. */
    method ParseAngle() returns (r: Step)
      requires Valid() && src.Rest() != []
      modifies src
      ensures Valid()
      ensures r == AngleToken(old(src.Rest()), lastBIToken, ext)
      ensures r.Produced? ==> src.Rest() == r.rest
    {
      ghost var s := src.Rest();
      var leftBracket := src.Read();
      var c := src.Peek();
      src.Unread(leftBracket as Byte);
      assert src.Rest() == s;
      if c == '<' as int {
        var dict := ext.parseDictionary(src.Rest());
        assert Consumes(dict, s);
        match dict
        case Rejected =>
          r := Failed(Unparsable);
        case Parsed(pod, n) =>
          src.Skip(n);
          SkipSpaces();
          var p := src.Peek();
          if p == 's' as int {
            var stream := ext.parseStream(pod, src.Rest());
            assert Consumes(stream, src.Rest());
            match stream
            case Rejected =>
              r := Failed(Unparsable);
            case Parsed(bytes, m) =>
              src.Skip(m);
              r := Produced(Stream(pod, bytes), src.Rest(), lastBIToken);
          } else {
            r := Produced(Dictionary(pod), src.Rest(), lastBIToken);
          }
      } else {
        r := ParseString();
      }
    }

    /** The '[' branch. */
    method ParseArray() returns (r: Step)
      requires Valid()
      modifies src
      ensures Valid()
      ensures r == ArrayToken(old(src.Rest()), lastBIToken, ext)
      ensures r.Produced? ==> src.Rest() == r.rest
    {
      var arr := ext.parseArray(src.Rest());
      assert Consumes(arr, src.Rest());
      match arr
      case Rejected =>
        r := Failed(Unparsable);
      case Parsed(items, n) =>
        src.Skip(n);
        r := Produced(Array(items), src.Rest(), lastBIToken);
    }

    /** The '(' branch, and the hex-string half of the '<' branch. */
    method ParseString() returns (r: Step)
      requires Valid()
      modifies src
      ensures Valid()
      ensures r == StringToken(old(src.Rest()), lastBIToken, ext)
      ensures r.Produced? ==> src.Rest() == r.rest
    {
      var str := ext.parseString(src.Rest());
      assert Consumes(str, src.Rest());
      match str
      case Rejected =>
        r := Failed(Unparsable);
      case Parsed(bytes, n) =>
        src.Skip(n);
        r := Produced(Str(bytes), src.Rest(), lastBIToken);
    }

    /** The '/' branch. */
    method ParseName() returns (r: Step)
      requires Valid()
      modifies src
      ensures Valid()
      ensures r == NameToken(old(src.Rest()), lastBIToken, ext)
      ensures r.Produced? ==> src.Rest() == r.rest
    {
      var name := ext.parseName(src.Rest());
      assert Consumes(name, src.Rest());
      match name
      case Rejected =>
        r := Failed(Unparsable);
      case Parsed(n, used) =>
        src.Skip(used);
        r := Produced(Name(n), src.Rest(), lastBIToken);
    }

    /** The 'I' branch: "ID" and the inline image data after it. */
    method ParseInlineImage() returns (r: Step)
      requires Valid()
      modifies src
      ensures Valid()
      ensures r == InlineImageToken(old(src.Rest()), lastBIToken)
      ensures r.Produced? ==> src.Rest() == r.rest
    {
      ghost var s := src.Rest();
      var b1 := src.Read();
      var b2 := src.Read();
      if !(b1 == 'I' as int && b2 == 'D' as int) {
        return Failed(ExpectedId);
      }
      assert src.Rest() == s[2..];
      var imageData := ReadImageBody();
      r := Produced(Operator("ID", None, Some(imageData)), src.Rest(), lastBIToken);
    }

    /** The 'I' branch after "ID". */
    method ReadImageBody() returns (imageData: seq<Byte>)
      requires src.Valid()
      modifies src
      ensures src.Valid()
      ensures imageData == ImageBody(old(src.Rest())).0 && src.Rest() == ImageBody(old(src.Rest())).1
    {
      ghost var t := src.Rest();
      SkipOneWhitespace();
      var lastByte, currentByte := ReadWindow();
      ghost var s := src.Rest();
      ImageBodyParts(t, 0, lastByte, currentByte, s);
      imageData := ScanImageData(0, lastByte, currentByte);
      src.Unread('I' as int);
      src.Unread('E' as int);
    }

    /** The first two reads of the payload loop. */
    method ReadWindow() returns (lastByte: int, currentByte: int)
      requires src.Valid()
      modifies src
      ensures src.Valid()
      ensures lastByte == First(old(src.Rest())) && currentByte == First(Tail(old(src.Rest())))
      ensures src.Rest() == Tail(Tail(old(src.Rest())))
      ensures -1 <= lastByte < 256 && -1 <= currentByte < 256
      ensures lastByte == -1 || currentByte == -1 ==> src.Rest() == []
    {
      lastByte := src.Read();
      currentByte := src.Read();
    }

    /** The one white-space byte read after "ID", if there is one. */
    method SkipOneWhitespace()
      requires src.Valid()
      modifies src
      ensures src.Valid() && src.Rest() == ImageStart(old(src.Rest()))
    {
      var ws := src.Peek();
      if IsWhitespace(ws) {
        var _ := src.Read();
      }
    }

    /** The payload loop of the 'I' branch, given its first window. */
    method ScanImageData(two: int, last: int, cur: int) returns (imageData: seq<Byte>)
      requires src.Valid()
      requires -1 <= last < 256 && -1 <= cur < 256
      requires last == -1 || cur == -1 ==> src.Rest() == []
      modifies src
      ensures src.Valid()
      ensures imageData == ImageScan(two, last, cur, old(src.Rest())).0
      ensures src.Rest() == ImageScan(two, last, cur, old(src.Rest())).1
    {
      var twoBytesAgo, lastByte, currentByte := two, last, cur;
      imageData := [];
      var next := src.Peek();
      var eof := src.IsEof();
      while !(IsWhitespace(twoBytesAgo) && lastByte == 'E' as int && currentByte == 'I' as int && IsWhitespace(next)) && !eof
        invariant src.Valid()
        invariant -1 <= lastByte < 256 && -1 <= currentByte < 256
        invariant lastByte == -1 || currentByte == -1 ==> src.Rest() == []
        invariant next == First(src.Rest()) && (eof <==> src.Rest() == [])
        invariant ImageScan(two, last, cur, old(src.Rest())).0 == imageData + ImageScan(twoBytesAgo, lastByte, currentByte, src.Rest()).0
        invariant ImageScan(two, last, cur, old(src.Rest())).1 == ImageScan(twoBytesAgo, lastByte, currentByte, src.Rest()).1
        decreases |src.Rest()|
      {
        ImageScanStep(twoBytesAgo, lastByte, currentByte, src.Rest());
        ghost var after := ImageScan(lastByte, currentByte, src.Rest()[0], src.Rest()[1..]).0;
        assert (imageData + [lastByte as Byte]) + after == imageData + ([lastByte as Byte] + after);
        imageData := imageData + [lastByte as Byte];
        twoBytesAgo := lastByte;
        lastByte := currentByte;
        currentByte := src.Read();
        next := src.Peek();
        eof := src.IsEof();
      }
      ImageScanStop(twoBytesAgo, lastByte, currentByte, src.Rest());
      assert imageData + [] == imageData;
    }
  }
}
