/** What the content-stream scanner promises, proved about the functions of
    module ContentScan: the shape of numeric literals and operator words, the
    keyword classification, the inline-image terminator search, the BI
    parameter dictionary, and the rules that stop or recover the scan. */
module ContentFacts {
  import opened Wrappers
  import opened Lexical
  import opened CosDictionary
  import opened ContentTokens
  import opened ContentScan

  // ---------------------------------------------------------------- numbers

  /** The number loop takes only digits and '.', takes a '.' only while
      `dotNotRead` holds and no '.' has been taken, and stops at the first
      byte it may not take. */
  lemma {:induction false} NumberTailShape(s: seq<Byte>, dotNotRead: bool, n: nat)
    requires n == NumberTail(s, dotNotRead)
    ensures forall i :: 0 <= i < n ==> IsDigit(s[i]) || s[i] == '.' as int
    ensures !dotNotRead ==> forall i :: 0 <= i < n ==> s[i] != '.' as int
    ensures forall i, j :: 0 <= i < j < n && s[i] == '.' as int ==> s[j] != '.' as int
    ensures n < |s| ==> !IsDigit(s[n])
    ensures n < |s| && s[n] == '.' as int ==> !dotNotRead || exists i :: 0 <= i < n && s[i] == '.' as int
  {
    if s != [] && (IsDigit(s[0]) || (dotNotRead && s[0] == '.' as int)) {
      var d' := dotNotRead && s[0] != '.' as int;
      var t := s[1..];
      NumberTailShape(t, d', n - 1);
      assert forall i :: 1 <= i <= |t| ==> s[i] == t[i - 1];
      if s[0] == '.' as int {
        assert forall i :: 1 <= i < n ==> s[i] != '.' as int;
      }
      if n < |s| && s[n] == '.' as int && dotNotRead {
        if s[0] == '.' as int {
          assert 0 < n;
        } else {
          var i :| 0 <= i < n - 1 && t[i] == '.' as int;
          assert s[i + 1] == '.' as int;
        }
      }
    }
  }

  /** A numeric literal read by the number branch: at least one byte; after
      the first, only digits and at most one '.', so a sign can only come
      first; and the byte after it could not have continued it. */
  lemma NumberLiteralShape(s: seq<Byte>)
    requires s != []
    ensures forall i :: 1 <= i < NumberLength(s) ==> IsDigit(s[i]) || s[i] == '.' as int
    ensures forall i :: 1 <= i < NumberLength(s) ==> s[i] != '+' as int && s[i] != '-' as int
    ensures forall i, j :: 0 <= i < j < NumberLength(s) && s[i] == '.' as int ==> s[j] != '.' as int
    ensures NumberLength(s) < |s| ==> !IsDigit(s[NumberLength(s)])
    ensures NumberLength(s) < |s| && s[NumberLength(s)] == '.' as int ==>
              exists i :: 0 <= i < NumberLength(s) && s[i] == '.' as int
  {
    var n := NumberLength(s);
    var t := s[1..];
    NumberTailShape(t, s[0] != '.' as int, n - 1);
    assert forall i :: 1 <= i <= |t| ==> s[i] == t[i - 1];
    if n < |s| && s[n] == '.' as int && s[0] != '.' as int {
      var i :| 0 <= i < n - 1 && t[i] == '.' as int;
      assert s[i + 1] == '.' as int;
    }
  }

  // ---------------------------------------------------------------- words

  /** readString's run: regular characters only, up to the first one that is not. */
  lemma {:induction false} RegularRunShape(s: seq<Byte>, n: nat)
    requires n == RegularLength(s)
    ensures forall i :: 0 <= i < n ==> IsRegular(s[i])
    ensures n < |s| ==> !IsRegular(s[n])
  {
    if s != [] && IsRegular(s[0]) {
      RegularRunShape(s[1..], n - 1);
      assert forall i :: 1 <= i <= |s[1..]| ==> s[i] == s[1..][i - 1];
    }
  }

  /** readOperator's word holds no white-space, no closing delimiter and none
      of '[', '<', '(' and '/'; a digit in it is a '0' or '1' right after a
      'd'; and the byte after it, if any, ends an operator. */
  lemma {:induction false} OperatorWordShape(s: seq<Byte>, n: nat)
    requires n == OperatorLength(s)
    ensures forall i :: 0 <= i < n ==>
              !IsWhitespace(s[i]) && !IsClosing(s[i]) && s[i] != '[' as int && s[i] != '<' as int
              && s[i] != '(' as int && s[i] != '/' as int
    ensures forall i :: 0 <= i < n && IsDigit(s[i]) ==>
              0 < i && s[i - 1] == 'd' as int && (s[i] == '0' as int || s[i] == '1' as int)
    ensures n < |s| ==> EndsOperator(s[n])
  {
    if s == [] || EndsOperator(s[0]) {
    } else if s[0] == 'd' as int && |s| > 1 && (s[1] == '0' as int || s[1] == '1' as int) {
      var t := s[2..];
      OperatorWordShape(t, n - 2);
      assert forall i :: 2 <= i < |s| ==> s[i] == t[i - 2];
    } else {
      var t := s[1..];
      OperatorWordShape(t, n - 1);
      assert forall i :: 1 <= i < |s| ==> s[i] == t[i - 1];
    }
  }

  // ---------------------------------------------------------------- keywords

  lemma SkipWsIdle(s: seq<Byte>)
    requires s != [] && !IsWhitespace(s[0])
    ensures SkipWs(s) == s
  {
  }

  /** The 'n', 't', 'f' and 'R' branches: the word read is not empty and
      starts with the byte that chose the branch; null, true, false and R
      are the keywords, and every other word is an operator of that name. */
  lemma KeywordClassification(s: seq<Byte>, lastBI: Option<Token>)
    requires s != [] && (s[0] == 'n' as int || s[0] == 't' as int || s[0] == 'f' as int || s[0] == 'R' as int)
    ensures var w := Chars(s[..RegularLength(s)]);
            var r := KeywordToken(s, lastBI);
            && w != [] && w[0] == s[0] as char && r.rest == s[|w|..] && r.lastBI == lastBI
            && (r.tok == Null <==> w == "null")
            && (r.tok == Bool(true) <==> w == "true")
            && (r.tok == Bool(false) <==> w == "false")
            && (r.tok == Reference <==> w == "R")
            && (r.tok.Operator? <==> w !in {"null", "true", "false", "R"})
            && (r.tok.Operator? ==> r.tok == Op(w))
  {
    SkipWsIdle(s);
    var n := RegularLength(s);
    assert n >= 1;
    var w := Chars(s[..n]);
    assert w[0] == s[0] as char;
  }

  // ---------------------------------------------------------------- stopping and recovery

  /** The bytes the dispatch hands to the operator reader. */
  predicate OperatorByte(c: int)
  {
    !(c == '<' as int || c == '[' as int || c == '(' as int || c == '/' as int
      || c == 'n' as int || c == 't' as int || c == 'f' as int || c == 'R' as int
      || IsDigit(c) || c == '-' as int || c == '+' as int || c == '.' as int
      || c == 'B' as int || c == 'I' as int || c == ']' as int)
  }

  /** parseNextToken returns null exactly at end of input, at a byte 0xFF
      (whose byte cast is -1), and for an operator word that is blank after
      trimming. */
  lemma NextStops(rest: seq<Byte>, lastBI: Option<Token>, ext: Collaborators)
    requires Progressive(ext)
    ensures var s := SkipWs(rest);
            Next(rest, lastBI, ext).Stop? <==>
              First(s) == -1 || First(s) == 255
              || (OperatorByte(First(s)) && Blank(Chars(s[..OperatorLength(s)])))
  {
    var s := SkipWs(rest);
    var c := First(s);
    if c == -1 || c == 255 {
    } else if OperatorByte(c) {
      assert Next(rest, lastBI, ext) == OperatorToken(s, lastBI);
    } else if c == 'n' as int || c == 't' as int || c == 'f' as int || c == 'R' as int {
      assert Next(rest, lastBI, ext) == KeywordToken(s, lastBI);
    } else {
      assert !Next(rest, lastBI, ext).Stop?;
    }
  }

  /** skipSpaces drops every byte of white-space-only input. */
  lemma {:induction false} SkipWsAllWhitespace(rest: seq<Byte>)
    requires forall i :: 0 <= i < |rest| ==> IsWhitespace(rest[i])
    ensures SkipWs(rest) == []
  {
    if rest != [] {
      assert forall i :: 0 <= i < |rest[1..]| ==> rest[1..][i] == rest[i + 1];
      SkipWsAllWhitespace(rest[1..]);
    }
  }

  /** On input that is white-space only, parse collects no token and ends
      without an exception. */
  lemma BlankInputParsesToNothing(rest: seq<Byte>, lastBI: Option<Token>, ext: Collaborators)
    requires Progressive(ext) && forall i :: 0 <= i < |rest| ==> IsWhitespace(rest[i])
    ensures ParseAll(rest, lastBI, ext) == Run([], None)
  {
    SkipWsAllWhitespace(rest);
    assert Next(rest, lastBI, ext) == Stop([]);
  }

  /** A ']' without its '[' is skipped as one byte and read as null. */
  lemma StrayBracket(rest: seq<Byte>, lastBI: Option<Token>, ext: Collaborators)
    requires Progressive(ext) && First(SkipWs(rest)) == ']' as int
    ensures Next(rest, lastBI, ext) == Produced(Null, SkipWs(rest)[1..], lastBI)
  {
    var s := SkipWs(rest);
    var c := First(s);
    assert !(c == -1 || c == 255 || c == '<' as int || c == '[' as int || c == '(' as int || c == '/' as int);
    assert !(c == 'n' as int || c == 't' as int || c == 'f' as int || c == 'R' as int);
    assert !(IsDigit(c) || c == '-' as int || c == '+' as int || c == '.' as int || c == 'B' as int || c == 'I' as int);
  }

  /** A closing delimiter other than ']' ends the scan: the operator word is empty. */
  lemma ClosingDelimiterStops(rest: seq<Byte>, lastBI: Option<Token>, ext: Collaborators)
    requires Progressive(ext) && IsClosing(First(SkipWs(rest))) && First(SkipWs(rest)) != ']' as int
    ensures Next(rest, lastBI, ext) == Stop(SkipWs(rest))
  {
    var s := SkipWs(rest);
    assert OperatorByte(First(s));
    assert Next(rest, lastBI, ext) == OperatorToken(s, lastBI);
    assert OperatorLength(s) == 0;
    assert s[..0] == [];
  }

  // ---------------------------------------------------------------- inline images

  /** The end-of-image mark at position j of the bytes w, `prev` being the
      byte before w: white-space, 'E', 'I', white-space, the 'E' at j. */
  ghost predicate MarkAt(prev: Byte, w: seq<Byte>, j: int)
  {
    0 <= j && j + 2 < |w| && IsWhitespace(if j == 0 then prev else w[j - 1])
    && w[j] == 'E' as int && w[j + 1] == 'I' as int && IsWhitespace(w[j + 2])
  }

  lemma MarkShift(prev: Byte, w: seq<Byte>, j: int)
    requires w != [] && 1 <= j
    ensures MarkAt(prev, w, j) == MarkAt(w[0], w[1..], j - 1)
  {
  }

  /** The payload loop, once two bytes have been read: the payload is the
      bytes from lastByte on, and the scan leaves the input two bytes after
      the payload's end. */
  lemma {:induction false} ImageScanPayload(two: Byte, last: Byte, cur: Byte, s: seq<Byte>)
    ensures var r := ImageScan(two, last, cur, s);
            var k := |r.0|;
            && k <= |s| && r.0 == ([last, cur] + s)[..k] && r.1 == s[k..]
    decreases |s|
  {
    if (IsWhitespace(two) && last == 'E' as int && cur == 'I' as int && IsWhitespace(First(s))) || s == [] {
    } else {
      ImageScanStep(two, last, cur, s);
      var r' := ImageScan(last, cur, s[0], s[1..]);
      ImageScanPayload(last, cur, s[0], s[1..]);
      var k' := |r'.0|;
      assert [last] + ([cur, s[0]] + s[1..])[..k'] == ([last, cur] + s)[..k' + 1];
      assert s[1..][k'..] == s[k' + 1..];
    }
  }

  /** The loop's condition, read as a mark at the start of the window. */
  lemma MarkAtStart(two: Byte, last: Byte, cur: Byte, s: seq<Byte>)
    ensures MarkAt(two, [last, cur] + s, 0) <==>
              s != [] && IsWhitespace(two) && last == 'E' as int && cur == 'I' as int && IsWhitespace(s[0])
  {
    assert s != [] ==> ([last, cur] + s)[2] == s[0];
  }

  /** The payload loop ends at the first mark, and only there or at the end
      of the input: no mark starts inside the payload, and one starts right
      after it unless the input ran out. */
  lemma {:induction false} ImageScanMarks(two: Byte, last: Byte, cur: Byte, s: seq<Byte>)
    ensures var k := |ImageScan(two, last, cur, s).0|;
            && (forall j :: 0 <= j < k ==> !MarkAt(two, [last, cur] + s, j))
            && (k < |s| <==> MarkAt(two, [last, cur] + s, k))
    decreases |s|
  {
    var w := [last, cur] + s;
    MarkAtStart(two, last, cur, s);
    if s == [] || MarkAt(two, w, 0) {
      assert ImageScan(two, last, cur, s).0 == [];
    } else {
      ImageScanStep(two, last, cur, s);
      ImageScanMarks(last, cur, s[0], s[1..]);
      var k' := |ImageScan(last, cur, s[0], s[1..]).0|;
      assert w[1..] == [cur, s[0]] + s[1..];
      forall j | 1 <= j < k' + 1
        ensures !MarkAt(two, w, j)
      {
        MarkShift(two, w, j);
      }
      MarkShift(two, w, k' + 1);
    }
  }

  /** What the 'I' branch does after "ID", on the bytes u that follow the one
      white-space byte it skips. twoBytesAgo starts at 0, which counts as
      white-space, so a mark may start at u's first byte. The payload is the
      prefix of u before the first mark, so it keeps the white-space before
      "EI"; once a mark ends it, the bytes left, with the "EI" pushed back,
      are exactly those from the mark's 'E' on. At the end of the input the
      last two bytes are dropped from the payload and nothing is left. */
  lemma ImageWindow(u: seq<Byte>)
    requires |u| >= 2
    ensures var r := ImageScan(0, u[0], u[1], u[2..]);
            var p := r.0;
            && |p| + 2 <= |u| && p == u[..|p|] && r.1 == u[|p| + 2..]
            && (forall j :: 0 <= j < |p| ==> !MarkAt(0, u, j))
            && (|p| + 2 < |u| <==> MarkAt(0, u, |p|))
            && (|p| + 2 < |u| ==> [69, 73] + r.1 == u[|p|..])
            && (|p| + 2 == |u| ==> r.1 == [])
  {
    var last, cur, s := u[0], u[1], u[2..];
    assert [last, cur] + s == u;
    ImageScanPayload(0, last, cur, s);
    ImageScanMarks(0, last, cur, s);
    var r := ImageScan(0, last, cur, s);
    var p := r.0;
    assert s[|p|..] == u[|p| + 2..];
    if |p| + 2 < |u| {
      assert u[|p|..] == u[|p|..|p| + 2] + u[|p| + 2..];
      assert u[|p|..|p| + 2] == [69, 73];
    }
  }

  /** ImageBody on fewer than two bytes gives an empty payload and leaves
      "EI"; on more, it is the scan ImageWindow describes, with "EI" pushed
      back in front of what the scan leaves. */
  lemma ImageBodyWindow(t: seq<Byte>)
    ensures var u := ImageStart(t);
            |u| < 2 ==> ImageBody(t).0 == [] && ImageBody(t).1 == [69, 73]
    ensures var u := ImageStart(t);
            |u| >= 2 ==>
              var r := ImageScan(0, u[0], u[1], u[2..]);
              ImageBody(t).0 == r.0 && ImageBody(t).1 == [69, 73] + r.1
  {
    var u := ImageStart(t);
    var last, cur, rest := First(u), First(Tail(u)), Tail(Tail(u));
    ImageBodyParts(t, 0, last, cur, rest);
    var r := ImageScan(0, last, cur, rest);
    assert [69 as Byte] + ([73 as Byte] + r.1) == [69, 73] + r.1;
    if |u| < 2 {
      assert rest == [];
      ImageScanStop(0, last, cur, rest);
    } else {
      assert last == u[0] && cur == u[1] && rest == u[2..];
    }
  }

  /** The 'I' branch fails exactly when "ID" does not follow the 'I'. */
  lemma InlineImageNeedsId(s: seq<Byte>)
    ensures InlineImage(s).Err? <==> !(|s| >= 2 && s[0] == 'I' as int && s[1] == 'D' as int)
    ensures InlineImage(s).Err? ==> InlineImage(s).error == ExpectedId
    ensures InlineImage(s).Ok? ==> InlineImage(s).value == ImageBody(s[2..])
  {
  }

  // ---------------------------------------------------------------- BI parameters

  /** One Name/value pair of the BI loop; a null value removes the key. */
  datatype Entry = Entry(key: string, value: Option<Token>)

  /** Where the BI loop reads its last token: the pairs it has read, and the
      bytes and lastBIToken at the token that is not a Name. When a value
      fails or is an operator the loop fails and the pairs are cut short there. */
  ghost function ImagePairs(rest: seq<Byte>, lastBI: Option<Token>, ext: Collaborators)
    : (r: (seq<Entry>, seq<Byte>, Option<Token>))
    requires Progressive(ext)
    decreases Measure(rest)
  {
    match Next(rest, lastBI, ext)
    case Produced(t, r1, lb1) =>
      if t.Name? then
        match Next(r1, lb1, ext)
        case Stop(r2) =>
          SuffixMeasure(r2, r1);
          var r := ImagePairs(r2, lb1, ext);
          ([Entry(t.name, None)] + r.0, r.1, r.2)
        case Produced(v, r2, lb2) =>
          if v.Operator? then ([], rest, lastBI)
          else
            var r := ImagePairs(r2, lb2, ext);
            ([Entry(t.name, Some(v))] + r.0, r.1, r.2)
        case Failed(_) => ([], rest, lastBI)
      else ([], rest, lastBI)
    case _ => ([], rest, lastBI)
  }

  /** ImagePairs after a Name `key` and the `value` that follows it. */
  lemma ImagePairsPair(rest: seq<Byte>, lastBI: Option<Token>, ext: Collaborators, key: Step, value: Step)
    requires Progressive(ext)
    requires key == Next(rest, lastBI, ext) && key.Produced? && key.tok.Name?
    requires value == Next(key.rest, key.lastBI, ext)
    ensures value.Stop? ==>
              var r := ImagePairs(value.rest, key.lastBI, ext);
              ImagePairs(rest, lastBI, ext) == ([Entry(key.tok.name, None)] + r.0, r.1, r.2)
    ensures value.Produced? && !value.tok.Operator? ==>
              var r := ImagePairs(value.rest, value.lastBI, ext);
              ImagePairs(rest, lastBI, ext) == ([Entry(key.tok.name, Some(value.tok))] + r.0, r.1, r.2)
  {
  }

  /** ImagePairs on a token that is not a Name. */
  lemma ImagePairsEnd(rest: seq<Byte>, lastBI: Option<Token>, ext: Collaborators, key: Step)
    requires Progressive(ext)
    requires key == Next(rest, lastBI, ext) && !(key.Produced? && key.tok.Name?)
    ensures ImagePairs(rest, lastBI, ext) == ([], rest, lastBI)
  {
  }

  /** setItem of one pair. */
  function Put(d: Dict<Token>, e: Entry): Dict<Token>
  {
    match e.value
    case None => d.RemoveItem(e.key)
    case Some(v) => d.SetItem(e.key, v)
  }

  /** The dictionary after the pairs, in the order they were read. */
  function PutAll(d: Dict<Token>, pairs: seq<Entry>): Dict<Token>
    decreases |pairs|
  {
    if pairs == [] then d else PutAll(Put(d, pairs[0]), pairs[1..])
  }

  /** The value the last pair for a key gives it, or `fallback` when no pair
      names the key. */
  function Latest(pairs: seq<Entry>, k: string, fallback: Option<Token>): Option<Token>
  {
    if pairs == [] then fallback
    else if pairs[|pairs| - 1].key == k then pairs[|pairs| - 1].value
    else Latest(pairs[..|pairs| - 1], k, fallback)
  }

  lemma PutAllCons(d: Dict<Token>, e: Entry, pairs: seq<Entry>)
    ensures PutAll(d, [e] + pairs) == PutAll(Put(d, e), pairs)
  {
    assert ([e] + pairs)[1..] == pairs;
  }

  lemma {:induction false} PutAllLast(d: Dict<Token>, pairs: seq<Entry>)
    requires pairs != []
    ensures PutAll(d, pairs) == Put(PutAll(d, pairs[..|pairs| - 1]), pairs[|pairs| - 1])
    decreases |pairs|
  {
    if |pairs| == 1 {
      assert pairs[..0] == [];
      assert PutAll(d, pairs) == PutAll(Put(d, pairs[0]), []);
    } else {
      var tail := pairs[1..];
      PutAllLast(Put(d, pairs[0]), tail);
      assert tail[..|tail| - 1] == pairs[..|pairs| - 1][1..];
      assert tail[|tail| - 1] == pairs[|pairs| - 1];
      assert PutAll(d, pairs) == PutAll(Put(d, pairs[0]), tail);
      assert PutAll(d, pairs[..|pairs| - 1]) == PutAll(Put(d, pairs[0]), pairs[..|pairs| - 1][1..]);
    }
  }

  /** A key of the dictionary the BI loop builds has the value of the last
      pair that named it (none when that value was null), and keys no pair
      names keep what they had; the dictionary stays well formed. */
  lemma {:induction false} PutAllGet(d: Dict<Token>, pairs: seq<Entry>, k: string)
    ensures PutAll(d, pairs).Get(k) == Latest(pairs, k, d.Get(k))
    ensures d.Valid() ==> PutAll(d, pairs).Valid()
    decreases |pairs|
  {
    if pairs != [] {
      var init := pairs[..|pairs| - 1];
      PutAllLast(d, pairs);
      PutAllGet(d, init, k);
    }
  }

  /** The BI loop succeeds exactly when the token after the pairs is an
      operator, and then it ends with that operator's name and image data,
      where that operator left the input, and with the dictionary that the
      pairs build, in order, on the one it was given. */
  lemma {:induction false} ImageParametersTrace(rest: seq<Byte>, params: Dict<Token>, lastBI: Option<Token>,
                                                ext: Collaborators)
    requires Progressive(ext)
    ensures var (pairs, at, atBI) := ImagePairs(rest, lastBI, ext);
            var r := ImageParameters(rest, params, lastBI, ext);
            var t := Next(at, atBI, ext);
            && (r.ParamsDone? <==> t.Produced? && t.tok.Operator?)
            && (r.ParamsDone? ==>
                  r == ParamsDone(t.tok.op, t.tok.imageData, t.rest, t.lastBI, PutAll(params, pairs)))
    decreases Measure(rest)
  {
    var key := Next(rest, lastBI, ext);
    if key.Produced? && key.tok.Name? {
      var value := Next(key.rest, key.lastBI, ext);
      ImageParametersPair(rest, params, lastBI, ext, key, value);
      ImagePairsPair(rest, lastBI, ext, key, value);
      match value {
        case Stop(r2) =>
          SuffixMeasure(r2, key.rest);
          var d := params.RemoveItem(key.tok.name);
          ImageParametersTrace(r2, d, key.lastBI, ext);
          PutAllCons(params, Entry(key.tok.name, None), ImagePairs(r2, key.lastBI, ext).0);
        case Produced(v, r2, lb2) =>
          if !v.Operator? {
            var d := params.SetItem(key.tok.name, v);
            ImageParametersTrace(r2, d, lb2, ext);
            PutAllCons(params, Entry(key.tok.name, Some(v)), ImagePairs(r2, lb2, ext).0);
          }
        case Failed(_) =>
      }
    } else {
      ImageParametersEnd(rest, params, lastBI, ext, key);
      ImagePairsEnd(rest, lastBI, ext, key);
    }
  }

  /** The BI branch: the operator word BI is followed by Name/value pairs,
      and the first token that is not a Name ends them. BI is produced
      exactly when that token is an operator; the BI operator then carries
      the dictionary the pairs build and, unless that operator is itself a
      nested BI, its image data, and it is lastBIToken from then on. */
  lemma BeginImageCarriesData(s: seq<Byte>, lastBI: Option<Token>, ext: Collaborators)
    requires Progressive(ext) && |s| >= 2 && s[0] == 'B' as int && s[1] == 'I' as int
    requires RegularLength(s) == 2
    ensures var start := Some(Operator("BI", Some(Empty()), None));
            var (pairs, at, atBI) := ImagePairs(s[2..], start, ext);
            var t := Next(at, atBI, ext);
            var r := BeginImageToken(s, lastBI, ext);
            && (r.Produced? <==> t.Produced? && t.tok.Operator?)
            && (r.Produced? ==>
                  && r.tok.Operator? && r.tok.op == "BI" && r.tok.imageParams == Some(PutAll(Empty(), pairs))
                  && r.rest == t.rest
                  && (t.tok.op != "BI" ==> r.tok.imageData == t.tok.imageData && r.lastBI == Some(r.tok)))
  {
    SkipWsIdle(s);
    assert s[..2] == [s[0], s[1]];
    assert Chars(s[..2]) == "BI";
    var start := Some(Operator("BI", Some(Empty()), None));
    var ip := ImageParameters(s[2..], Empty(), start, ext);
    ImageParametersTrace(s[2..], Empty(), start, ext);
    assert BeginImageToken(s, lastBI, ext) ==
      match ip
      case ParamsFailed(e) => Failed(e)
      case ParamsDone(op, data, r, lb, params) =>
        if op == "BI" then Produced(Operator("BI", Some(params), None), r, WithImageData(lb, data))
        else Produced(Operator("BI", Some(params), data), r, Some(Operator("BI", Some(params), data)));
  }
}
