/**
 * Model of mem01/src/utilities/DataType.cpp: the element-type tag, its
 * registry `DataTypeGet<T>`, the parser `DataTypeFromString`, the printer
 * `DataTypeToString` and the two stream operators built on them.
 */
module DataTypes {
  import opened Optional

  /**
   * The tag enumeration. `TypeUnlisted` stands for any other value an enum
   * variable may hold (the printer's `default:` branch); `TypeHalf` exists only
   * in an accelerator build and is not modelled.
   */
  datatype DataType =
    | TypeBool | TypeInt8 | TypeUint8 | TypeInt16 | TypeUint16
    | TypeInt32 | TypeUint32 | TypeInt64 | TypeUint64
    | TypeFloat | TypeDouble | TypeString | TypeDataType | TypeUnknown
    | TypeUnlisted(raw: int)
  {
    predicate IsListed() { !TypeUnlisted? }

    predicate IsInteger() {
      TypeInt8? || TypeUint8? || TypeInt16? || TypeUint16? ||
      TypeInt32? || TypeUint32? || TypeInt64? || TypeUint64?
    }
  }

  /** The element types `DataTypeGet<T>` is specialised for. */
  datatype ElementType =
    | BoolElem | Int8Elem | Uint8Elem | Int16Elem | Uint16Elem | Int32Elem | Uint32Elem
    | Int64Elem | Uint64Elem | FloatElem | DoubleElem | StringElem | DataTypeElem

  /** `DataTypeGet<T>()`: the tag of an element type. */
  function DataTypeGet(e: ElementType): (t: DataType)
    ensures t.IsListed() && t != TypeUnknown
  {
    match e
    case BoolElem => TypeBool
    case Int8Elem => TypeInt8
    case Uint8Elem => TypeUint8
    case Int16Elem => TypeInt16
    case Uint16Elem => TypeUint16
    case Int32Elem => TypeInt32
    case Uint32Elem => TypeUint32
    case Int64Elem => TypeInt64
    case Uint64Elem => TypeUint64
    case FloatElem => TypeFloat
    case DoubleElem => TypeDouble
    case StringElem => TypeString
    case DataTypeElem => TypeDataType
  }

  /** Distinct element types get distinct tags. */
  lemma DataTypeGetInjective(e1: ElementType, e2: ElementType)
    requires DataTypeGet(e1) == DataTypeGet(e2)
    ensures e1 == e2
  {
  }

  // ---------------------------------------------------------------------------
  // Spellings

  /** Every spelling the parser accepts for a tag (the reference table). */
  function Spellings(t: DataType): set<string> {
    match t
    case TypeBool => {"bool"}
    case TypeInt8 => {"int8", "int8_t"}
    case TypeUint8 => {"uint8", "uint8_t"}
    case TypeInt16 => {"int16", "int16_t"}
    case TypeUint16 => {"uint16", "uint16_t"}
    case TypeInt32 => {"int32", "int32_t"}
    case TypeUint32 => {"uint32", "uint32_t"}
    case TypeInt64 => {"int64", "int64_t"}
    case TypeUint64 => {"uint64", "uint64_t"}
    case TypeFloat => {"float"}
    case TypeDouble => {"double"}
    case TypeString => {"string"}
    case TypeDataType => {"dataType"}
    case TypeUnknown => {"Unknown"}
    case TypeUnlisted(_) => {}
  }

  /** The short spelling of an integer tag, without the `_t` suffix. */
  function ShortName(t: DataType): string
    requires t.IsInteger()
  {
    match t
    case TypeInt8 => "int8"
    case TypeUint8 => "uint8"
    case TypeInt16 => "int16"
    case TypeUint16 => "uint16"
    case TypeInt32 => "int32"
    case TypeUint32 => "uint32"
    case TypeInt64 => "int64"
    case TypeUint64 => "uint64"
  }

  // ---------------------------------------------------------------------------
  // Parser

  /** The `if`/`else` chain of `DataTypeFromString`; `None` is the uninitialised tag of a failure. */
  function ParseTag(s: string): Option<DataType> {
    if s == "bool" then Some(TypeBool)
    else if s == "int8" || s == "int8_t" then Some(TypeInt8)
    else if s == "uint8" || s == "uint8_t" then Some(TypeUint8)
    else if s == "int16" || s == "int16_t" then Some(TypeInt16)
    else if s == "uint16" || s == "uint16_t" then Some(TypeUint16)
    else if s == "int32" || s == "int32_t" then Some(TypeInt32)
    else if s == "uint32" || s == "uint32_t" then Some(TypeUint32)
    else if s == "int64" || s == "int64_t" then Some(TypeInt64)
    else if s == "uint64" || s == "uint64_t" then Some(TypeUint64)
    else if s == "float" then Some(TypeFloat)
    else if s == "double" then Some(TypeDouble)
    else if s == "string" then Some(TypeString)
    else if s == "dataType" then Some(TypeDataType)
    else if s == "Unknown" then Some(TypeUnknown)
    else None
  }

  /** A `bool *success` argument: null, or a flag holding its current value. */
  datatype SuccessOut = NullFlag | Flag(value: bool)

  /** The flag after the function stored `hadSuccess` through it (only when it is not null). */
  function Store(success: SuccessOut, hadSuccess: bool): (r: SuccessOut)
    ensures r.NullFlag? <==> success.NullFlag?
    ensures r.Flag? ==> r.value == hadSuccess
  {
    if success.Flag? then Flag(hadSuccess) else NullFlag
  }

  datatype Parsed = Parsed(tag: Option<DataType>, success: SuccessOut)

  /** `DataTypeFromString(s, success)`. */
  function DataTypeFromString(s: string, success: SuccessOut): (r: Parsed)
    ensures r.success == Store(success, r.tag.Some?)
    ensures r.tag.Some? ==> s in Spellings(r.tag.value)
  {
    var tag := ParseTag(s);
    ParseTagSound(s);
    Parsed(tag, Store(success, tag.Some?))
  }

  /** Whatever the parser returns, the input was one of the tag's spellings. */
  lemma ParseTagSound(s: string)
    ensures ParseTag(s).Some? ==> s in Spellings(ParseTag(s).value)
  {
  }

  // Each accepted spelling, run through the chain (in small groups, to keep each proof cheap).

  lemma ParsesScalarSpellings()
    ensures ParseTag("bool") == Some(TypeBool)
    ensures ParseTag("float") == Some(TypeFloat)
    ensures ParseTag("double") == Some(TypeDouble)
  {
  }

  lemma ParsesNamedSpellings()
    ensures ParseTag("string") == Some(TypeString)
    ensures ParseTag("dataType") == Some(TypeDataType)
    ensures ParseTag("Unknown") == Some(TypeUnknown)
  {
  }

  lemma ParsesEightBitSpellings()
    ensures ParseTag("int8") == Some(TypeInt8)
    ensures ParseTag("int8_t") == Some(TypeInt8)
    ensures ParseTag("uint8") == Some(TypeUint8)
    ensures ParseTag("uint8_t") == Some(TypeUint8)
  {
  }

  lemma ParsesSixteenBitSpellings()
    ensures ParseTag("int16") == Some(TypeInt16)
    ensures ParseTag("int16_t") == Some(TypeInt16)
    ensures ParseTag("uint16") == Some(TypeUint16)
    ensures ParseTag("uint16_t") == Some(TypeUint16)
  {
  }

  lemma ParsesThirtyTwoBitSpellings()
    ensures ParseTag("int32") == Some(TypeInt32)
    ensures ParseTag("int32_t") == Some(TypeInt32)
    ensures ParseTag("uint32") == Some(TypeUint32)
    ensures ParseTag("uint32_t") == Some(TypeUint32)
  {
  }

  lemma ParsesSixtyFourBitSpellings()
    ensures ParseTag("int64") == Some(TypeInt64)
    ensures ParseTag("int64_t") == Some(TypeInt64)
    ensures ParseTag("uint64") == Some(TypeUint64)
    ensures ParseTag("uint64_t") == Some(TypeUint64)
  {
  }

  /** Every spelling of a tag parses to that tag, and nothing else parses at all. */
  lemma ParseTagExact(s: string, t: DataType)
    ensures ParseTag(s) == Some(t) <==> s in Spellings(t)
  {
    ParseTagSound(s);
    if s in Spellings(t) {
      ParsesScalarSpellings();
      ParsesNamedSpellings();
      ParsesEightBitSpellings();
      ParsesSixteenBitSpellings();
      ParsesThirtyTwoBitSpellings();
      ParsesSixtyFourBitSpellings();
    }
  }

  // ---------------------------------------------------------------------------
  // Printer

  datatype Printed = Printed(text: string, success: SuccessOut)

  /** The `switch` of `DataTypeToString`; the printed name and whether a case matched. */
  function TagName(t: DataType): (string, bool) {
    match t
    case TypeBool => ("bool", true)
    case TypeInt8 => ("int8_t", true)
    case TypeUint8 => ("uint8_t", true)
    case TypeInt16 => ("int16_t", true)
    case TypeUint16 => ("uint16_t", true)
    case TypeInt32 => ("int32_t", true)
    case TypeUint32 => ("uint32_t", true)
    case TypeInt64 => ("int64_t", true)
    case TypeUint64 => ("uint64_t", true)
    case TypeFloat => ("float", true)
    case TypeDouble => ("double", true)
    case TypeString => ("string", true)
    case TypeDataType => ("DataType", true)
    case TypeUnknown => ("Unknown", true)
    case TypeUnlisted(_) => ("", false)
  }

  /** `DataTypeToString(t, success)`. */
  function DataTypeToString(t: DataType, success: SuccessOut): (r: Printed)
    ensures r.success == Store(success, t.IsListed())
    ensures !t.IsListed() ==> r.text == ""
    ensures t.IsListed() && t != TypeDataType ==> r.text in Spellings(t)
  {
    var (text, ok) := TagName(t);
    Printed(text, Store(success, ok))
  }

  /** Every listed tag but `TypeDataType` survives printing and parsing back. */
  lemma RoundTrip(t: DataType, flag: bool)
    requires t.IsListed() && t != TypeDataType
    ensures var printed := DataTypeToString(t, Flag(flag));
      && printed.success == Flag(true)
      && DataTypeFromString(printed.text, Flag(flag)) == Parsed(Some(t), Flag(true))
  {
    var printed := DataTypeToString(t, Flag(flag));
    ParseTagExact(printed.text, t);
  }

  /** `TypeDataType` prints as "DataType", which the parser (expecting "dataType") rejects. */
  lemma DataTypeTagDoesNotRoundTrip(flag: bool)
    ensures DataTypeToString(TypeDataType, Flag(flag)) == Printed("DataType", Flag(true))
    ensures DataTypeFromString("DataType", Flag(flag)) == Parsed(None, Flag(false))
    ensures DataTypeFromString("dataType", Flag(flag)) == Parsed(Some(TypeDataType), Flag(true))
  {
    ParseTagExact("DataType", TypeDataType);
  }

  /** Each integer tag parses from its short and its `_t` spelling; the printer emits the `_t` one. */
  lemma IntegerAliases(t: DataType)
    requires t.IsInteger()
    ensures DataTypeToString(t, NullFlag).text == ShortName(t) + "_t"
    ensures ParseTag(ShortName(t)) == Some(t)
    ensures ParseTag(ShortName(t) + "_t") == Some(t)
  {
    ParseTagExact(ShortName(t), t);
    ParseTagExact(ShortName(t) + "_t", t);
  }

  // ---------------------------------------------------------------------------
  // Stream operators

  /** An output stream: the text written so far and its failbit. */
  datatype OStream = OStream(text: string, failed: bool)

  /** `os << dataType`: the name is written iff the conversion succeeded, else failbit is set. */
  function WriteDataType(os: OStream, t: DataType): (r: OStream)
    ensures r.failed <==> os.failed || !t.IsListed()
    ensures !os.failed && t.IsListed() ==> r.text == os.text + DataTypeToString(t, NullFlag).text
    ensures os.failed || !t.IsListed() ==> r.text == os.text
  {
    var printed := DataTypeToString(t, Flag(false));
    if printed.success == Flag(true) then
      // a stream that has already failed writes nothing
      if os.failed then os else OStream(os.text + printed.text, false)
    else
      OStream(os.text, true)
  }

  /** An input stream: the characters not yet consumed and its failbit. */
  datatype IStream = IStream(rest: string, failed: bool)

  /** The white-space characters of the "C" locale. */
  predicate IsSpace(c: char) {
    c == ' ' || c == '\t' || c == '\n' || c == '\U{0B}' || c == '\U{0C}' || c == '\r'
  }

  predicate NoSpace(s: string) {
    forall i | 0 <= i < |s| :: !IsSpace(s[i])
  }

  /** What `is >> s` has left after skipping leading white space: a suffix, and all it dropped was white space. */
  function SkipSpace(s: string): (r: string)
    ensures |r| <= |s| && r == s[|s| - |r|..]
    ensures r == [] || !IsSpace(r[0])
    ensures forall i | 0 <= i < |s| - |r| :: IsSpace(s[i])
  {
    if s != [] && IsSpace(s[0]) then SkipSpace(s[1..]) else s
  }

  /** Splits off the maximal leading run of non-white-space characters. */
  function SplitToken(s: string): (r: (string, string))
    ensures r.0 + r.1 == s && NoSpace(r.0)
    ensures r.1 == [] || IsSpace(r.1[0])
  {
    if s == [] || IsSpace(s[0]) then ("", s)
    else
      var (w, rest) := SplitToken(s[1..]);
      assert [s[0]] + w + rest == s;
      ([s[0]] + w, rest)
  }

  /** `is >> s` on a string: no extraction (and failbit) when the stream failed or holds only white space. */
  function ExtractWord(stream: IStream): (r: (IStream, string))
    ensures NoSpace(r.1)
    ensures r.0.failed <==> stream.failed || r.1 == ""
    ensures stream.failed ==> r == (stream, "")
    // the input is white space, then the word, then what stays unread, which starts with white space if anything
    ensures !stream.failed ==>
      && |r.1| + |r.0.rest| <= |stream.rest|
      && stream.rest[|stream.rest| - |r.1| - |r.0.rest|..] == r.1 + r.0.rest
      && (forall i | 0 <= i < |stream.rest| - |r.1| - |r.0.rest| :: IsSpace(stream.rest[i]))
      && (r.0.rest == [] || IsSpace(r.0.rest[0]))
  {
    if stream.failed then (stream, "")
    else
      var (w, rest) := SplitToken(SkipSpace(stream.rest));
      (IStream(rest, w == ""), w)
  }

  /** `is >> dataType`: failbit is set iff the extracted word does not parse. */
  function ReadDataType(stream: IStream): (r: (IStream, Option<DataType>))
    ensures r.0.failed <==> stream.failed || r.1.None?
    ensures !stream.failed ==> (r.0.failed <==> r.1.None?)
    ensures r.1.Some? ==> !stream.failed
    ensures stream.failed ==> r == (stream, None)
    // the tag is what the parser makes of the extracted word, and reading stops after that word
    ensures !stream.failed ==> r.1 == ParseTag(ExtractWord(stream).1) && r.0.rest == ExtractWord(stream).0.rest
  {
    var (after, word) := ExtractWord(stream);
    var parsed := DataTypeFromString(word, Flag(false));
    assert ParseTag("") == None;
    if parsed.success == Flag(false) then (IStream(after.rest, true), parsed.tag)
    else (after, parsed.tag)
  }

  /** On a good stream, `operator>>` yields tag `t` iff the extracted word is one of `t`'s spellings. */
  lemma ReadDataTypeAccepts(stream: IStream, t: DataType)
    requires !stream.failed
    ensures ReadDataType(stream).1 == Some(t) <==> ExtractWord(stream).1 in Spellings(t)
  {
    ParseTagExact(ExtractWord(stream).1, t);
  }

  /** Skipping white space in front of text that does not start with white space leaves exactly that text. */
  lemma {:induction false} SkipSpaceOfSpaces(ws: string, s: string)
    requires forall i | 0 <= i < |ws| :: IsSpace(ws[i])
    requires s == [] || !IsSpace(s[0])
    ensures SkipSpace(ws + s) == s
  {
    if ws != [] {
      assert (ws + s)[0] == ws[0];
      assert (ws + s)[1..] == ws[1..] + s;
      SkipSpaceOfSpaces(ws[1..], s);
    } else {
      assert ws + s == s;
    }
  }

  lemma {:induction false} SplitTokenOfWord(w: string, suffix: string)
    requires NoSpace(w)
    requires suffix == [] || IsSpace(suffix[0])
    ensures SplitToken(w + suffix) == (w, suffix)
  {
    if w != [] {
      assert (w + suffix)[0] == w[0] && !IsSpace(w[0]);
      assert (w + suffix)[1..] == w[1..] + suffix;
      SplitTokenOfWord(w[1..], suffix);
      assert [w[0]] + w[1..] == w;
    } else {
      assert w + suffix == suffix;
    }
  }

  predicate IsWordChar(c: char) {
    'a' <= c <= 'z' || 'A' <= c <= 'Z' || '0' <= c <= '9' || c == '_'
  }

  /** Letters, digits and underscores only (checked character by character). */
  predicate AllWordChars(s: string) {
    s == [] || (IsWordChar(s[0]) && AllWordChars(s[1..]))
  }

  lemma {:induction false} WordCharsHaveNoSpace(s: string)
    requires AllWordChars(s)
    ensures NoSpace(s)
  {
    if s != [] {
      WordCharsHaveNoSpace(s[1..]);
      assert forall i | 1 <= i < |s| :: s[i] == s[1..][i - 1];
    }
  }

  // The names the printer emits, checked character by character (in small groups, to keep each proof cheap).

  lemma SimpleNamesAreWords()
    ensures AllWordChars("bool")
    ensures AllWordChars("float")
    ensures AllWordChars("double")
    ensures AllWordChars("string")
    ensures AllWordChars("Unknown")
  {
  }

  lemma NarrowIntegerNamesAreWords()
    ensures AllWordChars("int8_t")
    ensures AllWordChars("uint8_t")
    ensures AllWordChars("int16_t")
    ensures AllWordChars("uint16_t")
  {
  }

  lemma WideIntegerNamesAreWords()
    ensures AllWordChars("int32_t")
    ensures AllWordChars("uint32_t")
    ensures AllWordChars("int64_t")
    ensures AllWordChars("uint64_t")
  {
  }

  lemma DataTypeNameIsWord()
    ensures AllWordChars("DataType")
  {
  }

  lemma TagNameIsWord(t: DataType)
    requires t.IsListed()
    ensures TagName(t).0 != [] && AllWordChars(TagName(t).0)
  {
    SimpleNamesAreWords();
    NarrowIntegerNamesAreWords();
    WideIntegerNamesAreWords();
    DataTypeNameIsWord();
  }

  /** Every name the printer emits is one non-empty word. */
  lemma PrintedNameIsWord(t: DataType)
    requires t.IsListed()
    ensures var name := DataTypeToString(t, NullFlag).text;
      name != [] && NoSpace(name)
  {
    var name := DataTypeToString(t, NullFlag).text;
    TagNameIsWord(t);
    WordCharsHaveNoSpace(name);
  }

  /**
   * Writing a listed tag other than `TypeDataType` to a good stream and reading
   * the text back, after any leading white space and up to the next white
   * space, yields the same tag, stream good.
   */
  lemma StreamRoundTrip(t: DataType, ws: string, suffix: string)
    requires t.IsListed() && t != TypeDataType
    requires forall i | 0 <= i < |ws| :: IsSpace(ws[i])
    requires suffix == [] || IsSpace(suffix[0])
    ensures var written := WriteDataType(OStream("", false), t);
      ReadDataType(IStream(ws + written.text + suffix, false)) == (IStream(suffix, false), Some(t))
  {
    var name := DataTypeToString(t, NullFlag).text;
    var written := WriteDataType(OStream("", false), t);
    assert written.text == name;
    PrintedNameIsWord(t);
    assert ws + name + suffix == ws + (name + suffix);
    SkipSpaceOfSpaces(ws, name + suffix);
    SplitTokenOfWord(name, suffix);
    RoundTrip(t, false);
  }
}
