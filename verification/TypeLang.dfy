/** The compact type language: resolved field types, their printed form
    (FieldType.String) and the shape the parser reads out of a type expression. */
module TypeLang {
  import opened Common
  import opened Text

  datatype Kind =
    | Uint8 | Uint16 | Uint32 | Uint64 | Uint128
    | Int8 | Int16 | Int32 | Int64 | Int128
    | Float32 | Float64 | Bool | String | Bytes

  datatype FieldType =
    | Scalar(kind: Kind)
    | Struct(fields: seq<Field>)
    | Optional(elem: FieldType)
    | List(elem: FieldType)
    | Array(elem: FieldType, len: int)
    | Map(key: FieldType, elem: FieldType)
    | Enum(values: seq<string>)
    | Sum(variants: seq<Variant>)

  datatype Field = Field(name: string, typ: FieldType)

  /** One arm of a sum; a unit variant has no payload type. */
  datatype Variant = Variant(name: string, typ: Option<FieldType>)

  /** The wire spelling of a scalar kind. */
  function KindName(k: Kind): (s: string)
    ensures s != "" && IsWord(s)
  {
    match k
    case Uint8 => "uint8" case Uint16 => "uint16" case Uint32 => "uint32"
    case Uint64 => "uint64" case Uint128 => "uint128"
    case Int8 => "int8" case Int16 => "int16" case Int32 => "int32"
    case Int64 => "int64" case Int128 => "int128"
    case Float32 => "float32" case Float64 => "float64"
    case Bool => "bool" case String => "string" case Bytes => "bytes"
  }

  const KINDS: seq<Kind> := [
    Uint8, Uint16, Uint32, Uint64, Uint128, Int8, Int16, Int32, Int64, Int128,
    Float32, Float64, Bool, String, Bytes]

  /** The first kind in `kinds` spelled `s`. */
  function FindKind(s: string, kinds: seq<Kind>): (k: Option<Kind>)
    ensures k.Some? ==> KindName(k.value) == s && k.value in kinds
    ensures k.None? ==> forall c | c in kinds :: KindName(c) != s
  {
    if kinds == [] then None
    else if KindName(kinds[0]) == s then Some(kinds[0])
    else FindKind(s, kinds[1..])
  }

  /** The scalar kind a name spells, if it spells one. */
  function KindOf(s: string): (k: Option<Kind>)
    ensures k.Some? ==> KindName(k.value) == s
  {
    FindKind(s, KINDS)
  }

  lemma KindNamesDiffer(a: Kind, b: Kind)
    ensures KindName(a) == KindName(b) ==> a == b
  {
  }

  lemma KindOfName(k: Kind)
    ensures KindOf(KindName(k)) == Some(k)
  {
    assert k in KINDS;
    KindNamesDiffer(k, KindOf(KindName(k)).value);
  }

  /** The parameterized type constructors. */
  datatype Former = FOptional | FList | FArray | FMap | FEnum | FSum

  function FormerName(f: Former): (s: string)
    ensures s != "" && IsWord(s)
  {
    match f
    case FOptional => "optional" case FList => "list" case FArray => "array"
    case FMap => "map" case FEnum => "enum" case FSum => "sum"
  }

  function FormerOf(s: string): (f: Option<Former>)
    ensures f.Some? ==> FormerName(f.value) == s
    ensures f.None? ==> forall g :: FormerName(g) != s
  {
    if s == "optional" then Some(FOptional) else if s == "list" then Some(FList)
    else if s == "array" then Some(FArray) else if s == "map" then Some(FMap)
    else if s == "enum" then Some(FEnum) else if s == "sum" then Some(FSum) else None
  }

  lemma FormerOfName(f: Former)
    ensures FormerOf(FormerName(f)) == Some(f)
  {
    var g := FormerOf(FormerName(f)).value;
    assert FormerName(g) == FormerName(f);
    assert |FormerName(f)| == |FormerName(g)| && FormerName(f)[0] == FormerName(g)[0];
  }

  const STRUCT: string := "struct"

  predicate IsWordChar(c: char) { 'a' <= c <= 'z' || 'A' <= c <= 'Z' || '0' <= c <= '9' || c == '_' }

  predicate IsWord(s: string) { forall i | 0 <= i < |s| :: IsWordChar(s[i]) }

  /** A type expression as read, before any name in it is looked up. An error
      node stands where the parser reports one if it gets that far. */
  datatype TypeExpr =
    | XScalar(kind: Kind)
    | XStruct
    | XNamed(name: string)
    | XOptional(elem: TypeExpr)
    | XList(elem: TypeExpr)
    | XArray(elem: TypeExpr, size: Option<int>)
    | XMap(key: TypeExpr, elem: TypeExpr)
    | XEnum(values: seq<string>)
    | XError(error: TypeError)

  datatype TypeError =
    | UnknownType(expr: string)
    | UnknownParameterized(outer: string)
    | EmptyEnum
    | ArrayWithoutSize
    | ArrayBadSize
    | MapArity
    | SumAsExpression
    | RecursiveType(name: string)
    | EmptySum

  // ---- printing ------------------------------------------------------------

  function Wrap(outer: string, inner: string): string { outer + "<" + inner + ">" }

  function Print(t: FieldType): string
    decreases t
  {
    match t
    case Scalar(k) => KindName(k)
    case Struct(_) => STRUCT
    case Optional(e) => Wrap(FormerName(FOptional), Print(e))
    case List(e) => Wrap(FormerName(FList), Print(e))
    case Array(e, n) => Wrap(FormerName(FArray), Print(e) + "," + IntText(n))
    case Map(k, e) => Wrap(FormerName(FMap), Print(k) + "," + Print(e))
    case Enum(values) => Wrap(FormerName(FEnum), JoinCommas(values))
    case Sum(variants) => Wrap(FormerName(FSum), PrintVariants(variants))
  }

  function PrintVariants(vs: seq<Variant>): string
    decreases vs
  {
    if vs == [] then ""
    else
      var head := if vs[0].typ.None? then vs[0].name else vs[0].name + ": " + Print(vs[0].typ.value);
      if |vs| == 1 then head else head + ", " + PrintVariants(vs[1..])
  }

  // ---- reading -------------------------------------------------------------

  /** Length of the longest prefix of word characters. */
  function WordLength(s: string): (n: nat)
    ensures n <= |s| && IsWord(s[..n])
    ensures n < |s| ==> !IsWordChar(s[n])
  {
    if s == "" || !IsWordChar(s[0]) then 0 else 1 + WordLength(s[1..])
  }

  datatype Applied = Applied(outer: string, inner: string)

  /** The match of `^(\w+)<(.+)>$`: a word, then everything between the first
      '<' and the final '>', on one line. */
  function MatchApplied(s: string): (m: Option<Applied>)
    ensures m.Some? ==> s == Wrap(m.value.outer, m.value.inner) && |m.value.inner| < |s|
    ensures m.Some? ==> m.value.inner != "" && '\n' !in m.value.inner && IsWord(m.value.outer)
  {
    var n := WordLength(s);
    if 0 < n && n + 2 < |s| && s[n] == '<' && s[|s| - 1] == '>' && '\n' !in s[n + 1..|s| - 1]
    then
      assert s == s[..n] + "<" + s[n + 1..|s| - 1] + ">";
      Some(Applied(s[..n], s[n + 1..|s| - 1]))
    else None
  }

  /** Scalar aliases, normalised away before anything else looks at the name. */
  function Unalias(s: string): (t: string)
    ensures t == s || t in {KindName(Float32), KindName(Float64), KindName(Bool)}
  {
    if s == "float" then KindName(Float32)
    else if s == "double" then KindName(Float64)
    else if s == "boolean" then KindName(Bool)
    else s
  }

  /** The trimmed, non-empty pieces of an enum's argument text. */
  function EnumValues(pieces: seq<string>): (values: seq<string>)
    ensures forall v | v in values :: v != "" && Trimmed(v)
  {
    if pieces == [] then []
    else if Trim(pieces[0]) == "" then EnumValues(pieces[1..])
    else [Trim(pieces[0])] + EnumValues(pieces[1..])
  }

  /** The branches of schemaResolver.typeOf, up to the point where a named type
      is looked up. `names` are the registered types. */
  function Parse(names: set<string>, text: string): TypeExpr
    decreases |text|, 0
  {
    var s := Unalias(Trim(text));
    if KindOf(s).Some? then XScalar(KindOf(s).value)
    else if s == STRUCT then XStruct
    else if s in names then XNamed(s)
    else
      match MatchApplied(s)
      case None => XError(UnknownType(s))
      case Some(m) =>
        assert s == Trim(text) || KindOf(s).Some? by { KindOfName(Float32); KindOfName(Float64); KindOfName(Bool); }
        ParseApplied(names, m.outer, m.inner)
  }

  datatype KeyValueText = KeyValueText(key: string, value: string)

  /** The two arguments of a map type, when there are exactly two; only the value
      is trimmed here. */
  function KeyValue(inner: string): (kv: Option<KeyValueText>)
    ensures kv.Some? ==> |kv.value.key| < |inner| && |kv.value.value| < |inner|
  {
    var kv := TopLevelParts(inner, 0);
    if |kv| != 2 then None
    else
      PartsRejoin(inner, 0);
      assert inner == kv[0] + "," + kv[1] by { assert kv[1..] == [kv[1]]; }
      Some(KeyValueText(kv[0], Trim(kv[1])))
  }

  function ParseApplied(names: set<string>, outer: string, inner: string): TypeExpr
    decreases |inner|, 1
  {
    match FormerOf(outer)
    case None => XError(UnknownParameterized(outer))
    case Some(FEnum) =>
      var values := EnumValues(SplitCommas(inner));
      if values == [] then XError(EmptyEnum) else XEnum(values)
    case Some(FOptional) => XOptional(Parse(names, inner))
    case Some(FList) => XList(Parse(names, inner))
    case Some(FArray) =>
      var comma := LastComma(inner);
      if comma < 0 then XError(ArrayWithoutSize)
      else XArray(Parse(names, inner[..comma]), Atoi(Trim(inner[comma + 1..])))
    case Some(FMap) =>
      var kv := KeyValue(inner);
      if kv.None? then XError(MapArity)
      else XMap(Parse(names, kv.value.key), Parse(names, kv.value.value))
    case Some(FSum) => XError(SumAsExpression)
  }

  // ---- the printable fragment ----------------------------------------------

  /** Enum names that survive printing: non-empty, trimmed, free of separators. */
  predicate EnumName(v: string) {
    v != "" && Trimmed(v) && forall i | 0 <= i < |v| :: v[i] !in {',', '\n', '<', '>', '[', ']'}
  }

  predicate EnumNames(values: seq<string>) {
    values != [] && forall i | 0 <= i < |values| :: EnumName(values[i])
  }

  /** No sum anywhere the printer would have to descend into, and only enum names
      and array sizes the reader accepts. Struct fields are not printed, so
      nothing is asked of them. */
  predicate Printable(t: FieldType)
    decreases t
  {
    match t
    case Scalar(_) => true
    case Struct(_) => true
    case Optional(e) => Printable(e)
    case List(e) => Printable(e)
    case Array(e, n) => Printable(e) && -0x8000_0000_0000_0000 <= n < 0x8000_0000_0000_0000
    case Map(k, e) => Printable(k) && Printable(e)
    case Enum(values) => EnumNames(values)
    case Sum(_) => false
  }

  /** The expression a printed type stands for. */
  function Expr(t: FieldType): TypeExpr
    requires Printable(t)
    decreases t
  {
    match t
    case Scalar(k) => XScalar(k)
    case Struct(_) => XStruct
    case Optional(e) => XOptional(Expr(e))
    case List(e) => XList(Expr(e))
    case Array(e, n) => XArray(Expr(e), Some(n))
    case Map(k, e) => XMap(Expr(k), Expr(e))
    case Enum(values) => XEnum(values)
  }

  /** The type with the struct fields its printed form does not carry left out. */
  function Erase(t: FieldType): FieldType
    decreases t
  {
    match t
    case Struct(_) => Struct([])
    case Optional(e) => Optional(Erase(e))
    case List(e) => List(Erase(e))
    case Array(e, n) => Array(Erase(e), n)
    case Map(k, e) => Map(Erase(k), Erase(e))
    case _ => t
  }

  // ---- what printed text looks like ----------------------------------------

  /** One line of text that is not empty, has no outer white space and is balanced
      from `depth`. */
  predicate Neat(s: string, depth: int) {
    s != "" && Trimmed(s) && '\n' !in s && Scan(s, depth) == Some(depth)
  }

  lemma {:induction false} WordScans(s: string, depth: int)
    requires IsWord(s)
    ensures Scan(s, depth) == Some(depth)
  {
    if s != "" {
      WordScans(s[1..], depth);
    }
  }

  lemma WordNeat(s: string, depth: int)
    requires s != "" && IsWord(s)
    ensures Neat(s, depth)
  {
    WordScans(s, depth);
    assert IsWordChar(s[0]) && IsWordChar(s[|s| - 1]) && !IsWordChar('\n');
  }

  lemma {:induction false} PlainScans(s: string, depth: int)
    requires forall i | 0 <= i < |s| :: Step(s[i]) == 0
    requires depth != 0
    ensures Scan(s, depth) == Some(depth)
  {
    if s != "" {
      PlainScans(s[1..], depth);
    }
  }

  lemma BracketScans(inner: string, depth: int)
    requires Scan(inner, depth + 1) == Some(depth + 1)
    ensures Scan("<" + (inner + ">"), depth) == Some(depth)
  {
    assert ("<" + (inner + ">"))[1..] == inner + ">";
    ScanAppend(inner, ">", depth + 1);
    assert ">"[1..] == "";
  }

  lemma WrapTrimmed(outer: string, inner: string)
    requires outer != "" && Trimmed(outer) && '\n' !in outer && '\n' !in inner
    ensures Wrap(outer, inner) != "" && Trimmed(Wrap(outer, inner)) && '\n' !in Wrap(outer, inner)
  {
    var w := Wrap(outer, inner);
    assert !IsSpace('>');
    assert w[0] == outer[0] && w[|w| - 1] == '>';
  }

  lemma WrapNeat(outer: string, inner: string, depth: int)
    requires outer != "" && IsWord(outer) && '\n' !in inner && Scan(inner, depth + 1) == Some(depth + 1)
    ensures Neat(Wrap(outer, inner), depth)
  {
    WordNeat(outer, depth);
    WrapTrimmed(outer, inner);
    hide Scan, Trimmed, IsWord;
    assert Wrap(outer, inner) == outer + ("<" + (inner + ">"));
    hide Wrap;
    BracketScans(inner, depth);
    ScanAppend(outer, "<" + (inner + ">"), depth);
  }

  lemma PairScans(a: string, b: string, depth: int)
    requires depth > 0 && Scan(a, depth) == Some(depth) && Scan(b, depth) == Some(depth)
    ensures Scan(a + "," + b, depth) == Some(depth)
  {
    assert a + "," + b == a + ("," + b);
    ScanAppend(a, "," + b, depth);
    assert ("," + b)[1..] == b;
  }

  lemma PairNeat(former: Former, a: string, b: string, depth: nat)
    requires Neat(a, depth + 1) && Neat(b, depth + 1)
    ensures Neat(Wrap(FormerName(former), a + "," + b), depth)
  {
    PairScans(a, b, depth + 1);
    WrapNeat(FormerName(former), a + "," + b, depth);
  }

  lemma {:induction false} JoinedNames(values: seq<string>)
    requires EnumNames(values)
    ensures JoinCommas(values) != "" && '\n' !in JoinCommas(values)
    ensures forall i | 0 <= i < |JoinCommas(values)| :: Step(JoinCommas(values)[i]) == 0
  {
    var v, s := values[0], JoinCommas(values);
    assert EnumName(v);
    if |values| > 1 {
      forall i | 0 <= i < |values[1..]| ensures EnumName(values[1..][i]) {
        assert values[1..][i] == values[i + 1];
      }
      JoinedNames(values[1..]);
      var rest := JoinCommas(values[1..]);
      assert s == v + "," + rest;
      forall i | 0 <= i < |s| ensures Step(s[i]) == 0 {
        assert s[i] == if i < |v| then v[i] else if i == |v| then ',' else rest[i - |v| - 1];
      }
    }
  }

  /** Printed text is one line, trimmed, and balanced from every depth. */
  lemma NeatInside(former: Former, inner: string, depth: nat)
    requires Neat(inner, depth + 1)
    ensures Neat(Wrap(FormerName(former), inner), depth)
  {
    WrapNeat(FormerName(former), inner, depth);
  }

  lemma StructNeat(depth: nat)
    ensures Neat(STRUCT, depth)
  {
    WordNeat(STRUCT, depth);
  }

  lemma SizeNeat(n: int, depth: nat)
    requires depth != 0
    ensures Neat(IntText(n), depth)
  {
    IntTextTrimmed(n);
    hide IntText;
    PlainScans(IntText(n), depth);
  }

  lemma EnumNeat(values: seq<string>, depth: nat)
    requires EnumNames(values)
    ensures Neat(Wrap(FormerName(FEnum), JoinCommas(values)), depth)
  {
    JoinedNames(values);
    hide JoinCommas;
    PlainScans(JoinCommas(values), depth + 1);
    WrapNeat(FormerName(FEnum), JoinCommas(values), depth);
  }

  lemma {:induction false} PrintedNeat(t: FieldType, depth: nat)
    requires Printable(t)
    ensures Neat(Print(t), depth)
    decreases t
  {
    hide Neat, Wrap, FormerName, KindName, IntText, JoinCommas, IsWord, EnumNames;
    match t
    case Scalar(k) => WordNeat(KindName(k), depth);
    case Struct(_) => StructNeat(depth);
    case Optional(e) =>
      PrintedNeat(e, depth + 1);
      NeatInside(FOptional, Print(e), depth);
    case List(e) =>
      PrintedNeat(e, depth + 1);
      NeatInside(FList, Print(e), depth);
    case Array(e, n) =>
      PrintedNeat(e, depth + 1);
      SizeNeat(n, depth + 1);
      PairNeat(FArray, Print(e), IntText(n), depth);
    case Map(k, e) =>
      PrintedNeat(k, depth + 1);
      PrintedNeat(e, depth + 1);
      PairNeat(FMap, Print(k), Print(e), depth);
    case Enum(values) => EnumNeat(values, depth);
  }

  lemma {:induction false} WordLengthOfWrap(outer: string, rest: string)
    requires IsWord(outer)
    ensures WordLength(outer + ("<" + rest)) == |outer|
  {
    var s := outer + ("<" + rest);
    if outer != "" {
      assert s[1..] == outer[1..] + ("<" + rest);
      WordLengthOfWrap(outer[1..], rest);
    }
  }

  lemma MatchWrap(outer: string, inner: string)
    requires outer != "" && IsWord(outer) && inner != "" && '\n' !in inner
    ensures MatchApplied(Wrap(outer, inner)) == Some(Applied(outer, inner))
  {
    var s := Wrap(outer, inner);
    assert s == outer + ("<" + (inner + ">"));
    WordLengthOfWrap(outer, inner + ">");
    assert s[..|outer|] == outer && s[|outer| + 1..|s| - 1] == inner;
  }

  /** Text with a '<' in it is neither a scalar, an alias nor `struct`. */
  lemma NotAWord(s: string)
    requires '<' in s
    ensures KindOf(s).None? && Unalias(s) == s && s != STRUCT
  {
    assert !IsWordChar('<');
    assert !IsWord(s);
    assert IsWord(STRUCT);
    AliasesAreWords();
  }

  lemma AliasesAreWords()
    ensures IsWord("float") && IsWord("double") && IsWord("boolean")
  {
  }

  lemma WrapIsItself(former: Former, inner: string)
    ensures var s := Wrap(FormerName(former), inner); Unalias(Trim(s)) == s && KindOf(s).None? && s != STRUCT
  {
    var s := Wrap(FormerName(former), inner);
    assert s[|FormerName(former)|] == '<';
    NotAWord(s);
    assert Trimmed(s) by { assert IsWordChar(s[0]); }
  }

  lemma ParseWrapped(names: set<string>, former: Former, inner: string)
    requires forall n | n in names :: '<' !in n
    requires inner != "" && '\n' !in inner
    ensures Parse(names, Wrap(FormerName(former), inner)) == ParseApplied(names, FormerName(former), inner)
  {
    var outer := FormerName(former);
    var s := Wrap(outer, inner);
    MatchWrap(outer, inner);
    assert s[|outer|] == '<';
    WrapIsItself(former, inner);
    hide ParseApplied, KindOf, MatchApplied, Trim, Unalias, Wrap, FormerName;
  }

  lemma {:induction false} NamesSurvive(values: seq<string>)
    requires forall i | 0 <= i < |values| :: values[i] != "" && Trimmed(values[i])
    ensures EnumValues(values) == values
  {
    if values != [] {
      NamesSurvive(values[1..]);
      assert values == [values[0]] + values[1..];
    }
  }

  // ---- main results --------------------------------------------------------

  lemma NoAlias(k: Kind)
    ensures Unalias(KindName(k)) == KindName(k)
  {
    hide IsWord;
  }

  lemma ParseScalar(names: set<string>, k: Kind)
    ensures Parse(names, KindName(k)) == XScalar(k)
  {
    NoAlias(k);
    hide Unalias;
    KindOfName(k);
    WordNeat(KindName(k), 0);
    hide KindName, KindOf, Trim, MatchApplied, ParseApplied;
  }

  lemma {:induction false} NoKind(s: string, kinds: seq<Kind>)
    requires forall k | k in kinds :: KindName(k) != s
    ensures FindKind(s, kinds).None?
  {
    if kinds != [] {
      NoKind(s, kinds[1..]);
    }
  }

  lemma StructIsNoKind()
    ensures KindOf(STRUCT).None?
  {
    forall k: Kind ensures KindName(k) != STRUCT {
      assert STRUCT[3] == 'u' && |STRUCT| == 6;
    }
    NoKind(STRUCT, KINDS);
  }

  lemma ParseStruct(names: set<string>)
    ensures Parse(names, STRUCT) == XStruct
  {
    WordNeat(STRUCT, 0);
    StructIsNoKind();
    assert Unalias(STRUCT) == STRUCT by { assert STRUCT[0] == 's'; }
  }

  lemma ParseOne(names: set<string>, former: Former, elem: string)
    requires forall n | n in names :: '<' !in n
    requires Neat(elem, 0)
    requires former == FOptional || former == FList
    ensures Parse(names, Wrap(FormerName(former), elem)) ==
            if former == FList then XList(Parse(names, elem)) else XOptional(Parse(names, elem))
  {
    ParseWrapped(names, former, elem);
  }

  lemma AppliedArray(names: set<string>, elem: string, n: int)
    requires -0x8000_0000_0000_0000 <= n < 0x8000_0000_0000_0000
    ensures ParseApplied(names, FormerName(FArray), elem + "," + IntText(n)) == XArray(Parse(names, elem), Some(n))
  {
    FormerOfName(FArray);
    ArraySplit(elem, n);
  }

  lemma ParseArray(names: set<string>, elem: string, n: int)
    requires forall name | name in names :: '<' !in name
    requires Neat(elem, 0) && -0x8000_0000_0000_0000 <= n < 0x8000_0000_0000_0000
    ensures Parse(names, Wrap(FormerName(FArray), elem + "," + IntText(n))) == XArray(Parse(names, elem), Some(n))
  {
    AppliedArray(names, elem, n);
    IntTextTrimmed(n);
    OneLine(elem, IntText(n));
    ParseWrapped(names, FArray, elem + "," + IntText(n));
  }

  lemma OneLine(a: string, b: string)
    requires '\n' !in a && '\n' !in b
    ensures '\n' !in a + "," + b && a + "," + b != ""
  {
  }

  /** The last comma of `elem,n` is the one before the size. */
  lemma ArraySplit(elem: string, n: int)
    ensures var inner := elem + "," + IntText(n);
            LastComma(inner) == |elem| && inner[..|elem|] == elem && Trim(inner[|elem| + 1..]) == IntText(n)
    ensures -0x8000_0000_0000_0000 <= n < 0x8000_0000_0000_0000 ==> Atoi(IntText(n)) == Some(n)
  {
    ParseSignedOfText(n);
    hide ParseSigned;
    IntTextTrimmed(n);
    hide IntText, Trim, Trimmed;
    var inner := elem + "," + IntText(n);
    assert inner[|elem| + 1..] == IntText(n);
    forall j | |elem| < j < |inner| ensures inner[j] != ',' {
      assert inner[j] == IntText(n)[j - |elem| - 1];
    }
    assert inner[|elem|] == ',';
  }

  lemma KeyValueOfPair(key: string, elem: string)
    requires Neat(key, 0) && Neat(elem, 0)
    ensures KeyValue(key + "," + elem) == Some(KeyValueText(key, elem))
  {
    SplitPair(key, elem);
  }

  lemma AppliedMap(names: set<string>, key: string, elem: string)
    requires Neat(key, 0) && Neat(elem, 0)
    ensures ParseApplied(names, FormerName(FMap), key + "," + elem) == XMap(Parse(names, key), Parse(names, elem))
  {
    hide Parse, KeyValue, Neat;
    FormerOfName(FMap);
    KeyValueOfPair(key, elem);
  }

  lemma ParseMap(names: set<string>, key: string, elem: string)
    requires forall name | name in names :: '<' !in name
    requires Neat(key, 0) && Neat(elem, 0)
    ensures Parse(names, Wrap(FormerName(FMap), key + "," + elem)) == XMap(Parse(names, key), Parse(names, elem))
  {
    AppliedMap(names, key, elem);
    OneLine(key, elem);
    ParseWrapped(names, FMap, key + "," + elem);
  }

  lemma AppliedEnum(names: set<string>, values: seq<string>)
    requires values != [] && forall i | 0 <= i < |values| :: values[i] != "" && Trimmed(values[i]) && ',' !in values[i]
    ensures ParseApplied(names, FormerName(FEnum), JoinCommas(values)) == XEnum(values)
  {
    FormerOfName(FEnum);
    SplitJoin(values);
    NamesSurvive(values);
  }

  lemma ParseEnum(names: set<string>, values: seq<string>)
    requires forall name | name in names :: '<' !in name
    requires values != [] && forall i | 0 <= i < |values| :: values[i] != "" && Trimmed(values[i]) && ',' !in values[i]
    requires JoinCommas(values) != "" && '\n' !in JoinCommas(values)
    ensures Parse(names, Wrap(FormerName(FEnum), JoinCommas(values))) == XEnum(values)
  {
    AppliedEnum(names, values);
    ParseWrapped(names, FEnum, JoinCommas(values));
  }

  /** Reading a printed type gives back the expression it stands for, for every
      nesting of the printable kinds, whatever types without a '<' in their name
      are registered. */
  lemma {:induction false} ParseUndoesPrint(names: set<string>, t: FieldType)
    requires Printable(t)
    requires forall n | n in names :: '<' !in n
    ensures Parse(names, Print(t)) == Expr(t)
    decreases t
  {
    match t
    case Scalar(k) => ParseScalar(names, k);
    case Struct(_) => ParseStruct(names);
    case Optional(e) =>
      PrintedNeat(e, 0);
      ParseOne(names, FOptional, Print(e));
      ParseUndoesPrint(names, e);
    case List(e) =>
      PrintedNeat(e, 0);
      ParseOne(names, FList, Print(e));
      ParseUndoesPrint(names, e);
    case Array(e, n) =>
      PrintedNeat(e, 0);
      ParseArray(names, Print(e), n);
      ParseUndoesPrint(names, e);
    case Map(k, e) =>
      PrintedNeat(k, 0);
      PrintedNeat(e, 0);
      ParseMap(names, Print(k), Print(e));
      ParseUndoesPrint(names, k);
      ParseUndoesPrint(names, e);
    case Enum(values) =>
      JoinedNames(values);
      forall i | 0 <= i < |values| ensures EnumName(values[i]) && ',' !in values[i] {
      }
      ParseEnum(names, values);
  }

  // ---- where reading does not undo printing --------------------------------

  /** For a bare enum the condition is exact: its printed form reads back exactly
      when there is a name and every name is non-empty, trimmed, and free of
      commas and line breaks. */
  lemma EnumReadsBackExactly(names: set<string>, values: seq<string>)
    requires forall n | n in names :: '<' !in n
    ensures Parse(names, Print(Enum(values))) == XEnum(values) <==>
            values != [] && forall v | v in values :: v != "" && Trimmed(v) && ',' !in v && '\n' !in v
  {
    hide Parse, ParseApplied, EnumValues, SplitCommas;
    var inner := JoinCommas(values);
    WrappedHead(names, FEnum, inner);
    if values != [] && forall v | v in values :: v != "" && Trimmed(v) && ',' !in v && '\n' !in v {
      JoinedText(values);
      AppliedEnum(names, values);
    }
    if Parse(names, Print(Enum(values))) == XEnum(values) {
      EnumArguments(names, inner);
      EnumValuesPlain(SplitCommas(inner));
      JoinHolds(values);
    }
  }

  lemma EnumArguments(names: set<string>, inner: string)
    ensures ParseApplied(names, FormerName(FEnum), inner) ==
            if EnumValues(SplitCommas(inner)) == [] then XError(EmptyEnum) else XEnum(EnumValues(SplitCommas(inner)))
  {
    hide EnumValues, SplitCommas, Parse;
    FormerOfName(FEnum);
  }

  /** Reading `word<...>` either fails as a whole or reads the applied form. */
  lemma WrappedHead(names: set<string>, former: Former, inner: string)
    requires forall n | n in names :: '<' !in n
    ensures var x := Parse(names, Wrap(FormerName(former), inner));
            if inner != "" && '\n' !in inner then x == ParseApplied(names, FormerName(former), inner) else x.XError?
  {
    hide ParseApplied, Parse, KindOf, MatchApplied, Trim, Unalias, Wrap, FormerName, IsWord;
    if inner != "" && '\n' !in inner {
      ParseWrapped(names, former, inner);
    } else {
      WrapIsItself(former, inner);
      MatchFails(FormerName(former), inner);
      WrapHasBracket(former, inner);
      ParseNoMatch(names, Wrap(FormerName(former), inner));
    }
  }

  lemma WrapHasBracket(former: Former, inner: string)
    ensures '<' in Wrap(FormerName(former), inner)
  {
    assert Wrap(FormerName(former), inner)[|FormerName(former)|] == '<';
  }

  lemma ParseNoMatch(names: set<string>, s: string)
    requires s !in names && Unalias(Trim(s)) == s && KindOf(s).None? && s != STRUCT && MatchApplied(s).None?
    ensures Parse(names, s) == XError(UnknownType(s))
  {
    hide ParseApplied, KindOf, MatchApplied, Trim, Unalias;
  }

  lemma MatchFails(outer: string, inner: string)
    requires outer != "" && IsWord(outer) && (inner == "" || '\n' in inner)
    ensures MatchApplied(Wrap(outer, inner)).None?
  {
    var s := Wrap(outer, inner);
    assert s == outer + ("<" + (inner + ">"));
    WordLengthOfWrap(outer, inner + ">");
    assert s[|outer| + 1..|s| - 1] == inner;
  }

  lemma TrimKeepsOut(s: string)
    ensures ',' !in s ==> ',' !in Trim(s)
  {
    var l := TrimLeft(s);
    assert Trim(s) == l[..|Trim(s)|];
  }

  lemma {:induction false} EnumValuesPlain(pieces: seq<string>)
    requires forall p | p in pieces :: ',' !in p
    ensures forall v | v in EnumValues(pieces) :: ',' !in v
  {
    hide Trim, Trimmed;
    if pieces != [] {
      assert pieces[0] in pieces;
      EnumValuesPlain(pieces[1..]);
      TrimKeepsOut(pieces[0]);
    }
  }

  lemma {:induction false} JoinedText(values: seq<string>)
    requires values != [] && forall v | v in values :: v != "" && '\n' !in v
    ensures JoinCommas(values) != "" && '\n' !in JoinCommas(values)
  {
    assert values[0] in values;
    if |values| > 1 {
      assert forall v | v in values[1..] :: v in values;
      JoinedText(values[1..]);
    }
  }

  lemma {:induction false} JoinHolds(values: seq<string>)
    ensures forall v, c | v in values && c in v :: c in JoinCommas(values)
  {
    if |values| > 1 {
      JoinHolds(values[1..]);
      assert values == [values[0]] + values[1..];
    }
  }

  /** A printed sum is never accepted back: sums have no expression form. */
  lemma SumNeverReadsBack(names: set<string>, variants: seq<Variant>)
    requires forall n | n in names :: '<' !in n
    ensures Parse(names, Print(Sum(variants))).XError?
  {
    hide Parse, ParseApplied, PrintVariants;
    WrappedHead(names, FSum, PrintVariants(variants));
    SumArguments(names, PrintVariants(variants));
  }

  lemma SumArguments(names: set<string>, inner: string)
    ensures ParseApplied(names, FormerName(FSum), inner) == XError(SumAsExpression)
  {
    hide Parse;
    FormerOfName(FSum);
  }

  /** Why brackets are excluded from enum names: as a map key, one unbalanced
      bracket hides the comma the reader splits at. */
  lemma BracketInKeyBreaksMap(names: set<string>)
    requires forall n | n in names :: '<' !in n
    ensures Parse(names, Print(Map(Enum(["a["]), Scalar(Uint8)))) == XError(MapArity)
  {
    var tail := "<" + ("a" + ("[" + (">" + ("," + KindName(Uint8)))));
    var inner := FormerName(FEnum) + tail;
    BracketText();
    hide Parse, ParseApplied, KeyValue, Print, Wrap;
    UnbalancedTail();
    WordScans(FormerName(FEnum), 0);
    ScanAppend(FormerName(FEnum), tail, 0);
    WrappedHead(names, FMap, inner);
    MapArguments(names, inner);
  }

  lemma BracketText()
    ensures var inner := FormerName(FEnum) + ("<" + ("a" + ("[" + (">" + ("," + KindName(Uint8))))));
            Print(Map(Enum(["a["]), Scalar(Uint8))) == Wrap(FormerName(FMap), inner) && inner != "" && '\n' !in inner
  {
    var inner := FormerName(FEnum) + ("<" + ("a" + ("[" + (">" + ("," + KindName(Uint8))))));
    assert Print(Enum(["a["])) + "," + KindName(Uint8) == inner;
  }

  lemma MapArguments(names: set<string>, inner: string)
    requires Scan(inner, 0).Some?
    ensures ParseApplied(names, FormerName(FMap), inner) == XError(MapArity)
  {
    hide Parse;
    FormerOfName(FMap);
    PartsAfterScan(inner, "", 0);
    assert inner + "" == inner;
  }

  lemma UnbalancedTail()
    ensures Scan("<" + ("a" + ("[" + (">" + ("," + KindName(Uint8))))), 0) == Some(1)
  {
    var t1 := "," + KindName(Uint8);
    var t2 := ">" + t1;
    var t3 := "[" + t2;
    var t4 := "a" + t3;
    WordScans(KindName(Uint8), 1);
    hide KindName;
    ScanOne(',', KindName(Uint8), 1);
    ScanOne('>', t1, 2);
    ScanOne('[', t2, 1);
    ScanOne('a', t3, 1);
    ScanOne('<', t4, 0);
  }

  lemma ScanOne(c: char, t: string, depth: int)
    ensures Scan([c] + t, depth) == if c == ',' && depth == 0 then None else Scan(t, depth + Step(c))
  {
    assert ([c] + t)[1..] == t;
  }
}
