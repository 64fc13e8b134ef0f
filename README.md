# PdfBox-Android content-stream scanner, COSFloat and PDCheckbox in Dafny

This project models three parts of PdfBox-Android and proves properties of
them.

- **PDFStreamParser** splits the decoded bytes of a page content stream into
  tokens, one per call of `parseNextToken`. The tokens are numbers, names,
  strings, arrays, dictionaries, the keywords `null`, `true`, `false` and
  `R`, and operators; the BI/ID/EI inline image also counts. `parse` collects
  them in `streamObjects`.
  - The parser is the class `StreamParser.PdfStreamParser`. Its fields are
    `streamObjects` and `lastBIToken`.
  - It reads from a push-back byte source, `PushbackSource.Source`: a byte
    sequence, a read position and a stack of pushed-back bytes. `Rest()` is
    its abstract value, the bytes that the following reads will return.
  - Every method, loops included, is proved to compute a pure function of
    those bytes, defined in the module `ContentScan`:
    - `Next` is one call of `parseNextToken`;
    - `ImageParameters` is the BI parameter loop;
    - `ImageScan` and `ImageBody` are the inline-image data scan;
    - `ParseAll` is `parse`.
  - The module `ContentFacts` proves what the scanner promises about those
    functions.
- **COSFloat** holds a decimal value together with the text it is written
  as. `removeNullDigits` is a loop and is proved against the function
  `NullDigitsRemoved`, whose properties are lemmas.
- **PDCheckbox** is a check box over its field dictionary. The dictionary
  is `CosDictionary.Dict`: a key sequence, which gives the iteration order,
  plus a map. The constructor and `getOnValue`, loops included, pick the
  last key of AP/N that is not Off. `check`, `unCheck` and `setValue`
  rewrite AS and V.

## Assumptions

- The base class of the parser is not part of this model. Its character
  tests and `readString` are given the behaviour that section 7.2.2 of
  ISO 32000-1 prescribes:
  - white-space is the characters of Table 1;
  - the closing delimiters are `)`, `>`, `]` and `}`;
  - `readString` reads the longest run of regular characters after
    white-space.
- The base class's dictionary, stream, array, string and name parsers are
  the parameter `ContentTokens.Collaborators`. The model assumes only that
  each either fails or consumes at least one byte and no more than there
  is. The test of whether `COSNumber.get` accepts a literal, `isNumber`, is
  a parameter in the same record, with no assumption on it.
- COSDictionary is not part of this model either. `Dict` assumes three
  things:
  - keys iterate in insertion order;
  - setting an existing key keeps its place;
  - `setItem` with null removes the key;
  - `getDictionaryObject` reads an entry holding the null object as no
    entry (the function `Checkbox.Lookup`).
- For COSFloat, `new BigDecimal(String)`, `String.valueOf(float)` and
  `toPlainString` are the parameter `CosFloat.DecimalLibrary`.

## Behaviour of the code worth knowing

- The inline-image payload keeps the white-space byte before "EI". The
  loop writes every `lastByte` until the window is white-space, 'E', 'I'
  with white-space next, so the white-space byte before "EI" is written
  too.
- `twoBytesAgo` starts at 0, a white-space byte. So "EI" followed by
  white-space right after "ID" ends the payload at once, empty.
- When the input ends before a terminator, the last two bytes of the
  window are not written. The loop's `!isEOF()` test stops it with them
  still in `lastByte` and `currentByte`. "EI" is pushed back all the same.
- A peeked byte 0xFF ends the scan just as the end of input does, because
  `(byte)nextByte == -1` holds for both. This is where the code and its
  documentation part ways: the Javadoc of `parseNextToken`
  (PDFStreamParser.java:129) promises null only when there are no more
  tokens. The model follows the code.

## Model

| member | source | states |
|---|---|---|
| StreamParser.PdfStreamParser.constructor | PdfBoxAndroid/src/org/apache/pdfboxandroid/pdfparser/PDFStreamParser.java:28-48 | a new parser has no tokens collected and no lastBIToken, and reads from the given source |
| StreamParser.PdfStreamParser.Parse | PdfBoxAndroid/src/org/apache/pdfboxandroid/pdfparser/PDFStreamParser.java:109-124 | the tokens appended to streamObjects are exactly, in order, those of successive parseNextToken calls up to the first null; the exception that ended the loop is returned |
| StreamParser.PdfStreamParser.CollectNextToken | PdfBoxAndroid/src/org/apache/pdfboxandroid/pdfparser/PDFStreamParser.java:114-117 | one turn of the loop: a token is appended and the input shrinks; on null or an exception nothing is appended and the loop's outcome is final |
| ContentScan.ParseAllCollect | PdfBoxAndroid/src/org/apache/pdfboxandroid/pdfparser/PDFStreamParser.java:114-117 | after null or an exception the collected list is final; after a token, appending it and parsing on gives the same list and the same exception as parsing from before it |
| ContentFacts.BlankInputParsesToNothing | PdfBoxAndroid/src/org/apache/pdfboxandroid/pdfparser/PDFStreamParser.java:109-142 | on white-space-only input parse collects no token and throws nothing |
| StreamParser.PdfStreamParser.ParseNextToken | PdfBoxAndroid/src/org/apache/pdfboxandroid/pdfparser/PDFStreamParser.java:133-359 | parseNextToken returns exactly the step Next describes (token, null or exception), leaves the source at the bytes Next leaves, updates lastBIToken only as Next does, and never touches streamObjects |
| ContentScan.Next | PdfBoxAndroid/src/org/apache/pdfboxandroid/pdfparser/PDFStreamParser.java:133-359 | every token produced shrinks the input (by a measure that also covers the "EI" pushed back after "ID"), and null leaves a suffix of the input |
| ContentFacts.NextStops | PdfBoxAndroid/src/org/apache/pdfboxandroid/pdfparser/PDFStreamParser.java:137-142 | parseNextToken returns null exactly at end of input, at a byte 0xFF, or when the operator branch reads a word that trims to nothing |
| ContentFacts.StrayBracket | PdfBoxAndroid/src/org/apache/pdfboxandroid/pdfparser/PDFStreamParser.java:333-340 | a stray ']' consumes exactly one byte and yields null as a token, lastBIToken unchanged |
| ContentFacts.ClosingDelimiterStops | PdfBoxAndroid/src/org/apache/pdfboxandroid/pdfparser/PDFStreamParser.java:341-349 | a closing delimiter other than ']' gives an empty operator word, so parseNextToken returns null there and consumes nothing |
| StreamParser.PdfStreamParser.ParseAngle | PdfBoxAndroid/src/org/apache/pdfboxandroid/pdfparser/PDFStreamParser.java:146-170 | '<<' gives a dictionary, or a stream when 's' follows it after white-space; a single '<' gives a string; a failing collaborator is an exception |
| StreamParser.PdfStreamParser.ParseArray | PdfBoxAndroid/src/org/apache/pdfboxandroid/pdfparser/PDFStreamParser.java:171-175 | '[' gives the array the collaborator parses, the source left after what it consumed |
| StreamParser.PdfStreamParser.ParseString | PdfBoxAndroid/src/org/apache/pdfboxandroid/pdfparser/PDFStreamParser.java:176-178 | '(' gives the string the collaborator parses |
| StreamParser.PdfStreamParser.ParseName | PdfBoxAndroid/src/org/apache/pdfboxandroid/pdfparser/PDFStreamParser.java:179-181 | '/' gives the name the collaborator parses |
| StreamParser.PdfStreamParser.ParseKeyword | PdfBoxAndroid/src/org/apache/pdfboxandroid/pdfparser/PDFStreamParser.java:182-226 | the 'n', 't', 'f' and 'R' branches compute KeywordToken and leave the source right after the word |
| ContentFacts.KeywordClassification | PdfBoxAndroid/src/org/apache/pdfboxandroid/pdfparser/PDFStreamParser.java:182-226 | the word is not empty and starts with the byte that chose the branch; null, true, false and R are recognised, each if and only if the word is exactly that keyword, and any other word is the operator of that name |
| StreamParser.PdfStreamParser.ReadRegular | PdfBoxAndroid/src/org/apache/pdfboxandroid/pdfparser/PDFStreamParser.java:184 | the loop of readString appends exactly the bytes it consumes, the RegularLength of them |
| StreamParser.PdfStreamParser.ReadString | PdfBoxAndroid/src/org/apache/pdfboxandroid/pdfparser/PDFStreamParser.java:184 | readString skips white-space and returns the longest run of regular characters, consuming exactly it |
| ContentFacts.RegularRunShape | PdfBoxAndroid/src/org/apache/pdfboxandroid/pdfparser/PDFStreamParser.java:184 | the word readString returns holds only regular characters, and the byte after it is not one |
| StreamParser.PdfStreamParser.ParseNumber | PdfBoxAndroid/src/org/apache/pdfboxandroid/pdfparser/PDFStreamParser.java:241-259 | the number branch reads exactly NumberLength bytes and gives the number token for them, or an exception when COSNumber.get refuses the literal |
| StreamParser.PdfStreamParser.ReadDigits | PdfBoxAndroid/src/org/apache/pdfboxandroid/pdfparser/PDFStreamParser.java:247-257 | the number loop appends exactly the bytes it consumes, NumberTail of them |
| ContentFacts.NumberTailShape | PdfBoxAndroid/src/org/apache/pdfboxandroid/pdfparser/PDFStreamParser.java:247-257 | the loop takes only digits and at most one '.', that only while dotNotRead holds, and stops at the first byte it may not take |
| ContentFacts.NumberLiteralShape | PdfBoxAndroid/src/org/apache/pdfboxandroid/pdfparser/PDFStreamParser.java:243-257 | a numeric literal has at most one '.'; after its first character all are digits or that '.', so '+' and '-' can only come first; the byte after it could not have continued it |
| StreamParser.PdfStreamParser.ParseBeginImage | PdfBoxAndroid/src/org/apache/pdfboxandroid/pdfparser/PDFStreamParser.java:261-282 | the 'B' branch computes BeginImageToken: an operator word, and for BI the parameter loop, with lastBIToken set as the branch sets it |
| StreamParser.PdfStreamParser.CollectImageParameters | PdfBoxAndroid/src/org/apache/pdfboxandroid/pdfparser/PDFStreamParser.java:269-279 | the BI loop computes ImageParameters: Name/value pairs go into the dictionary until the first token that is not a Name |
| ContentFacts.PutAllGet | PdfBoxAndroid/src/org/apache/pdfboxandroid/pdfparser/PDFStreamParser.java:272-276 | in the BI dictionary a key has the value of the last pair that named it (none when that value was null); other keys keep theirs; the dictionary stays well formed |
| ContentFacts.ImageParametersTrace | PdfBoxAndroid/src/org/apache/pdfboxandroid/pdfparser/PDFStreamParser.java:271-279 | the BI loop succeeds if and only if the token after the pairs is an operator, and then ends with that operator's name, image data and remaining input, and with the dictionary the pairs build in order |
| ContentFacts.BeginImageCarriesData | PdfBoxAndroid/src/org/apache/pdfboxandroid/pdfparser/PDFStreamParser.java:261-282 | BI is produced if and only if the loop ends on an operator; BI then carries the dictionary of the pairs and, unless the terminator is a nested BI, the terminator's image data, and is lastBIToken from then on |
| StreamParser.PdfStreamParser.ParseInlineImage | PdfBoxAndroid/src/org/apache/pdfboxandroid/pdfparser/PDFStreamParser.java:283-332 | the 'I' branch computes InlineImageToken: an exception unless "ID" is read, otherwise the ID operator with the scanned image data |
| ContentFacts.InlineImageNeedsId | PdfBoxAndroid/src/org/apache/pdfboxandroid/pdfparser/PDFStreamParser.java:290-294 | the 'I' branch fails if and only if the two bytes read are not "ID", and then with that error |
| StreamParser.PdfStreamParser.SkipOneWhitespace | PdfBoxAndroid/src/org/apache/pdfboxandroid/pdfparser/PDFStreamParser.java:297-301 | one white-space byte after "ID" is read, if there is one, and nothing else; the source is left at ImageStart |
| StreamParser.PdfStreamParser.ReadWindow | PdfBoxAndroid/src/org/apache/pdfboxandroid/pdfparser/PDFStreamParser.java:303-304 | the two reads fill lastByte and currentByte with the next two bytes, -1 past the end, and consume them |
| StreamParser.PdfStreamParser.ReadImageBody | PdfBoxAndroid/src/org/apache/pdfboxandroid/pdfparser/PDFStreamParser.java:295-330 | after "ID": one white-space byte is skipped, the window is read, the payload scanned and "EI" pushed back, as ImageBody says |
| StreamParser.PdfStreamParser.ScanImageData | PdfBoxAndroid/src/org/apache/pdfboxandroid/pdfparser/PDFStreamParser.java:302-326 | the payload loop writes exactly ImageScan's bytes and leaves the source where ImageScan does |
| ContentFacts.ImageScanPayload | PdfBoxAndroid/src/org/apache/pdfboxandroid/pdfparser/PDFStreamParser.java:311-326 | only lastByte values are written: the payload is a prefix of the window and the unread bytes, and the scan leaves the input just after the payload's last two bytes |
| ContentFacts.ImageScanMarks | PdfBoxAndroid/src/org/apache/pdfboxandroid/pdfparser/PDFStreamParser.java:311-319 | no white-space, 'E', 'I', white-space mark starts inside the payload, and one starts right after it if and only if the input did not run out |
| ContentFacts.ImageWindow | PdfBoxAndroid/src/org/apache/pdfboxandroid/pdfparser/PDFStreamParser.java:302-330 | the payload is the prefix of the bytes after "ID" before the first mark (white-space before "EI" included); after a mark, the bytes left with "EI" pushed back are those from the mark's 'E' on; at end of input nothing is left |
| ContentFacts.ImageBodyWindow | PdfBoxAndroid/src/org/apache/pdfboxandroid/pdfparser/PDFStreamParser.java:297-330 | with fewer than two bytes after "ID" and its white-space the payload is empty and only "EI" is left; otherwise ImageBody is the ImageWindow scan with "EI" in front |
| StreamParser.PdfStreamParser.ParseOperator | PdfBoxAndroid/src/org/apache/pdfboxandroid/pdfparser/PDFStreamParser.java:341-354 | the default branch gives the operator of the word readOperator reads, or null when that word is blank after trimming |
| StreamParser.PdfStreamParser.ReadOperator | PdfBoxAndroid/src/org/apache/pdfboxandroid/pdfparser/PDFStreamParser.java:368-398 | readOperator skips white-space and then consumes exactly the OperatorLength bytes it returns; the byte after them is left to be read |
| StreamParser.PdfStreamParser.ReadOperatorWord | PdfBoxAndroid/src/org/apache/pdfboxandroid/pdfparser/PDFStreamParser.java:374-397 | the loop of readOperator appends exactly the bytes it consumes |
| ContentFacts.OperatorWordShape | PdfBoxAndroid/src/org/apache/pdfboxandroid/pdfparser/PDFStreamParser.java:376-396 | the word holds no white-space, no closing delimiter and none of '[', '<', '(' and '/'; a digit in it is a '0' or '1' right after a 'd'; the byte after it ends an operator |
| StreamParser.PdfStreamParser.ReadOperatorChunk | PdfBoxAndroid/src/org/apache/pdfboxandroid/pdfparser/PDFStreamParser.java:387-395 | one turn of the readOperator loop consumes a non-empty prefix of the input and returns it, and the operator word still to be read is exactly that much shorter, so the turns add up to OperatorLength |
| StreamParser.PdfStreamParser.GetTokens | PdfBoxAndroid/src/org/apache/pdfboxandroid/pdfparser/PDFStreamParser.java:405-408 | getTokens returns the list of tokens collected, the one Parse appends to |
| StreamParser.PdfStreamParser.SkipSpaces | PdfBoxAndroid/src/org/apache/pdfboxandroid/pdfparser/PDFStreamParser.java:137 | skipSpaces consumes the leading white-space and nothing else |
| CosFloat.RemoveNullDigits | PdfBoxAndroid/src/org/apache/pdfboxandroid/cos/COSFloat.java:62-73 | the loop computes NullDigitsRemoved |
| CosFloat.StripZerosShape | PdfBoxAndroid/src/org/apache/pdfboxandroid/cos/COSFloat.java:67-70 | the inner loop removes a run of final '0's and nothing else, and stops at text not ending in '0' or ending in ".0" |
| CosFloat.OnlyZerosRemoved | PdfBoxAndroid/src/org/apache/pdfboxandroid/cos/COSFloat.java:62-73 | the result is a prefix of the input and every removed character is '0' |
| CosFloat.UnchangedWithoutFraction | PdfBoxAndroid/src/org/apache/pdfboxandroid/cos/COSFloat.java:65 | text without '.', or already ending with ".0", is returned unchanged |
| CosFloat.FractionKept | PdfBoxAndroid/src/org/apache/pdfboxandroid/cos/COSFloat.java:65-70 | text with a '.' keeps its '.', and the result ends in '0' only as ".0" |
| CosFloat.Idempotent | PdfBoxAndroid/src/org/apache/pdfboxandroid/cos/COSFloat.java:62-73 | removing null digits twice is removing them once |
| CosFloat.FromString | PdfBoxAndroid/src/org/apache/pdfboxandroid/cos/COSFloat.java:36-47 | the literal is kept verbatim with its decimal value and written back as it was; a literal BigDecimal refuses is an IOException with the source's message |
| CosFloat.FromFloat | PdfBoxAndroid/src/org/apache/pdfboxandroid/cos/COSFloat.java:24-27 | the float constructor is setValue on a new object, its exception passed on |
| CosFloat.CosFloatValue.SetValue | PdfBoxAndroid/src/org/apache/pdfboxandroid/cos/COSFloat.java:54-60 | the value becomes the decimal of the float's text and the written text its plain string without null digits; when the text is refused nothing changes |
| CosFloat.CosFloatValue.Of | PdfBoxAndroid/src/org/apache/pdfboxandroid/cos/COSFloat.java:16-17 | an object holds the decimal value and the text it is written as |
| CosFloat.CosFloatValue.WritePdf | PdfBoxAndroid/src/org/apache/pdfboxandroid/cos/COSFloat.java:111-114 | writePDF writes the text the value is kept as, which FromString keeps verbatim and SetValue sets to the plain string without null digits |
| Checkbox.LastNonOffKey | PdfBoxAndroid/src/org/apache/pdfboxandroid/pdmodel/interactive/form/PDCheckbox.java:36-42 | the keySet loop computes LastNonOff |
| Checkbox.LastNonOffNone | PdfBoxAndroid/src/org/apache/pdfboxandroid/pdmodel/interactive/form/PDCheckbox.java:36-42 | the loop keeps no key if and only if every key is Off |
| Checkbox.LastNonOffIsLast | PdfBoxAndroid/src/org/apache/pdfboxandroid/pdmodel/interactive/form/PDCheckbox.java:36-42 | the key kept is not Off and every key after it is Off: it is the last key that is not Off |
| Checkbox.Lookup | PdfBoxAndroid/src/org/apache/pdfboxandroid/pdmodel/interactive/form/PDCheckbox.java:29 | getDictionaryObject gives no entry when the key is absent or holds the null object, and the entry otherwise |
| Checkbox.NullEntryIsAbsent | PdfBoxAndroid/src/org/apache/pdfboxandroid/pdmodel/interactive/form/PDCheckbox.java:29-49 | a field whose AP or V holds the null object gives the constructor and getOnValue the results of the field without that entry |
| Checkbox.InitialValue | PdfBoxAndroid/src/org/apache/pdfboxandroid/pdmodel/interactive/form/PDCheckbox.java:29-49 | the constructor fails only with a failed cast |
| Checkbox.Open | PdfBoxAndroid/src/org/apache/pdfboxandroid/pdmodel/interactive/form/PDCheckbox.java:26-50 | the constructor fails exactly when InitialValue does and with its error; otherwise the new box holds the field and the on value InitialValue picks |
| Checkbox.OnValueFromAppearance | PdfBoxAndroid/src/org/apache/pdfboxandroid/pdmodel/interactive/form/PDCheckbox.java:29-49 | with an appearance dictionary, getOnValue and the constructor agree, on the last non-Off key of N or on none; the on value is never Off; without AP getOnValue fails and the constructor reads V |
| Checkbox.PdCheckbox.GetOnValue | PdfBoxAndroid/src/org/apache/pdfboxandroid/pdmodel/interactive/form/PDCheckbox.java:70-88 | getOnValue computes OnValue: a call on null without AP, a failed cast for an AP that is not a dictionary, otherwise the last non-Off key of N or none |
| Checkbox.SetName | PdfBoxAndroid/src/org/apache/pdfboxandroid/pdmodel/interactive/form/PDCheckbox.java:54 | setName writes the name under the key, or removes the key for null; no other key changes |
| Checkbox.ValueSet | PdfBoxAndroid/src/org/apache/pdfboxandroid/pdmodel/interactive/form/PDCheckbox.java:52-63 | after setValue, V holds the new value (or is gone for null) and AS shows it, or Off for null; no other key changes |
| Checkbox.PdCheckbox.SetValue | PdfBoxAndroid/src/org/apache/pdfboxandroid/pdmodel/interactive/form/PDCheckbox.java:52-63 | setValue leaves the field as ValueSet says and the on value as it was |
| Checkbox.ClearedValueUnchecks | PdfBoxAndroid/src/org/apache/pdfboxandroid/pdmodel/interactive/form/PDCheckbox.java:54-58 | setValue(null) leaves AS as unCheck does and removes V; nothing else differs |
| Checkbox.Checked | PdfBoxAndroid/src/org/apache/pdfboxandroid/pdmodel/interactive/form/PDCheckbox.java:93-96 | after check, AS holds the on value (or is gone when there is none); no other key changes |
| Checkbox.PdCheckbox.Check | PdfBoxAndroid/src/org/apache/pdfboxandroid/pdmodel/interactive/form/PDCheckbox.java:93-96 | check leaves the field as Checked says |
| Checkbox.Unchecked | PdfBoxAndroid/src/org/apache/pdfboxandroid/pdmodel/interactive/form/PDCheckbox.java:101-104 | after unCheck, AS is Off; no other key changes |
| Checkbox.PdCheckbox.UnCheck | PdfBoxAndroid/src/org/apache/pdfboxandroid/pdmodel/interactive/form/PDCheckbox.java:101-104 | unCheck leaves the field as Unchecked says |
| Checkbox.CheckThenUncheck | PdfBoxAndroid/src/org/apache/pdfboxandroid/pdmodel/interactive/form/PDCheckbox.java:93-104 | check then unCheck is unCheck alone, and unCheck then check is check alone |
| Checkbox.PdCheckbox.Of | PdfBoxAndroid/src/org/apache/pdfboxandroid/pdmodel/interactive/form/PDCheckbox.java:26-28 | a box holds its field dictionary and its on value |

## Left out

- The `forceParsing` argument of the constructor (PDFStreamParser.java:42-48): it goes to the base parser, which is not part of this model, and `PDFStreamParser` never reads it.
- Comments in content streams: `skipSpaces`, which is not part of this model, also skips `%` comments. Here it skips white-space only.
- The bodies of the base parser's dictionary, array, string, name and stream parsers, and `COSNumber.get`. They are parameters with the one assumption above. Stream-length resolution and the scratch file (`RandomAccess file`) go with them.
- `pdfSource.close()` in the `finally` of `parse`: resource handling.
- The capacity of the push-back buffer: the model's stack has no bound.
- Object identity: in the Java code, BI is shared through `lastBIToken` and updated in place by `setImageData`. The model does this on values. A nested BI's data goes to the token that `lastBIToken` then names, and the outer BI keeps none.
- `floatValue`, `intValue` and `longValue` of COSFloat: conversions of BigDecimal to binary numbers, that is floating-point library behaviour.
- `writePDF`'s ISO-8859-1 encoding and its write to an `OutputStream`: I/O.
- `COSFloat.accept`: visitor dispatch without logic.
- The PDField and PDChoiceButton superclasses, and the indirect-object resolution of `getDictionaryObject`. A stream under AP/N counts as a dictionary, as a COSStream is one.
- PDMMType1Font.java and COSVisitorException.java: constructor-only classes with nothing to state.
- The shared field dictionary: PDField and PDCheckbox see the same COSDictionary in the Java code. Here the box owns its copy.
