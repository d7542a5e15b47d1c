/** Message types and messages as protocol buffer reflection shows them, and trimming of white space. */
module ProtoTypes {
  datatype Kind =
    | BoolKind | EnumKind | StringKind | BytesKind | FloatKind | DoubleKind
    | Int32Kind | Sint32Kind | Sfixed32Kind | Int64Kind | Sint64Kind | Sfixed64Kind
    | Uint32Kind | Fixed32Kind | Uint64Kind | Fixed64Kind
    | MessageKind | GroupKind

  /** A field in a oneof that is not synthetic has realOneof; message names the type of a message field. */
  datatype Field = Field(kind: Kind, isList: bool, isMap: bool, realOneof: bool, hasPresence: bool, message: string)

  type Fields = map<string, Field>

  type Schema = map<string, Fields>

  predicate IsMessage(kind: Kind) {
    kind.MessageKind? || kind.GroupKind?
  }

  predicate IsSigned(kind: Kind) {
    || kind.Int32Kind? || kind.Sint32Kind? || kind.Sfixed32Kind?
    || kind.Int64Kind? || kind.Sint64Kind? || kind.Sfixed64Kind?
  }

  predicate IsUnsigned(kind: Kind) {
    kind.Uint32Kind? || kind.Fixed32Kind? || kind.Uint64Kind? || kind.Fixed64Kind?
  }

  /** A field name is an identifier. */
  predicate IsName(name: string) {
    name != "" && forall c | c in name :: 'a' <= c <= 'z' || 'A' <= c <= 'Z' || '0' <= c <= '9' || c == '_'
  }

  /** Names are identifiers, message fields name a type of the schema, and singular ones have presence. */
  ghost predicate WellFormed(schema: Schema) {
    forall t, name | t in schema && name in schema[t] ::
      && IsName(name)
      && (IsMessage(schema[t][name].kind) ==>
            schema[t][name].message in schema && (!Repeated(schema[t][name]) ==> schema[t][name].hasPresence))
  }

  predicate Repeated(f: Field) {
    f.isList || f.isMap
  }

  // Messages.

  /** Other: a list, a map, or a singular value of a kind that names no resource. */
  datatype Value = Text(text: string) | Number(number: int) | Embedded(message: Message) | Other

  /** fields holds the fields that were set; a field without presence that is not set reads as its default. */
  datatype Message = Message(messageType: string, fields: map<string, Value>)

  predicate InRange(kind: Kind, n: int) {
    match kind
    case Int32Kind | Sint32Kind | Sfixed32Kind => -0x8000_0000 <= n < 0x8000_0000
    case Int64Kind | Sint64Kind | Sfixed64Kind => -0x8000_0000_0000_0000 <= n < 0x8000_0000_0000_0000
    case Uint32Kind | Fixed32Kind => 0 <= n < 0x1_0000_0000
    case Uint64Kind | Fixed64Kind => 0 <= n < 0x1_0000_0000_0000_0000
    case _ => false
  }

  ghost predicate Conforms(schema: Schema, m: Message)
    decreases m
  {
    && m.messageType in schema
    && forall name | name in m.fields ::
         && name in schema[m.messageType]
         && var f := schema[m.messageType][name];
            match m.fields[name]
            case Text(_) => f.kind.StringKind? && !Repeated(f)
            case Number(n) => InRange(f.kind, n) && !Repeated(f)
            case Embedded(sub) => IsMessage(f.kind) && !Repeated(f) && sub.messageType == f.message && Conforms(schema, sub)
            case Other => Repeated(f) || !(f.kind.StringKind? || IsSigned(f.kind) || IsUnsigned(f.kind) || IsMessage(f.kind))
  }

  function DefaultValue(kind: Kind): Value {
    if kind.StringKind? then Text("")
    else if IsSigned(kind) || IsUnsigned(kind) then Number(0)
    else Other
  }

  /** The set value of a field, or the default of its kind. */
  function Get(m: Message, name: string, f: Field): Value {
    if name in m.fields then m.fields[name] else DefaultValue(f.kind)
  }

  // White space.

  predicate IsSpace(c: char) {
    var code := c as int;
    || 9 <= code <= 13 || 0x2000 <= code <= 0x200a
    || code in {32, 0x85, 0xa0, 0x1680, 0x2028, 0x2029, 0x202f, 0x205f, 0x3000}
  }

  function TrimLeft(s: string): string {
    if s != "" && IsSpace(s[0]) then TrimLeft(s[1..]) else s
  }

  function TrimRight(s: string): string {
    if s != "" && IsSpace(s[|s| - 1]) then TrimRight(s[..|s| - 1]) else s
  }

  function TrimSpace(s: string): string {
    TrimRight(TrimLeft(s))
  }

  predicate Blank(s: string) {
    forall c | c in s :: IsSpace(c)
  }

  lemma {:induction false} TrimLeftBlank(s: string)
    ensures TrimLeft(s) == "" <==> Blank(s)
    ensures TrimLeft(s) != "" ==> !IsSpace(TrimLeft(s)[0])
    ensures |TrimLeft(s)| <= |s| && (TrimLeft(s) == s <==> s == "" || !IsSpace(s[0]))
  {
    if s != "" && IsSpace(s[0]) {
      TrimLeftBlank(s[1..]);
      assert s == [s[0]] + s[1..];
    }
  }

  lemma {:induction false} TrimRightKeeps(s: string)
    ensures s != "" && !IsSpace(s[0]) ==> TrimRight(s) != "" && TrimRight(s)[0] == s[0]
    ensures |TrimRight(s)| <= |s| && (TrimRight(s) == s <==> s == "" || !IsSpace(s[|s| - 1]))
  {
    if s != "" && IsSpace(s[|s| - 1]) {
      TrimRightKeeps(s[..|s| - 1]);
    }
  }

  /** Trimming leaves nothing of blank text only, and leaves text alone that has no white space at its ends. */
  lemma TrimSpaceMeaning(s: string)
    ensures TrimSpace(s) == "" <==> Blank(s)
    ensures TrimSpace(s) == s <==> s == "" || (!IsSpace(s[0]) && !IsSpace(s[|s| - 1]))
  {
    TrimLeftBlank(s);
    TrimRightKeeps(TrimLeft(s));
    TrimRightKeeps(s);
    if TrimSpace(s) == s {
      assert |TrimLeft(s)| == |s|;
      SameLength(s);
    }
  }

  lemma {:induction false} SameLength(s: string)
    requires |TrimLeft(s)| == |s|
    ensures TrimLeft(s) == s
  {
    if s != "" && IsSpace(s[0]) {
      TrimLeftBlank(s[1..]);
    }
  }

  // Decimal text of integers.

  function FormatNat(n: nat): (s: string)
    ensures s != "" && forall c | c in s :: '0' <= c <= '9'
  {
    var digit := ['0' + (n % 10) as char];
    if n < 10 then digit else FormatNat(n / 10) + digit
  }

  function FormatInt(n: int): (s: string)
    ensures !Blank(s)
  {
    var s := if n < 0 then "-" + FormatNat(-n) else FormatNat(n);
    assert s[0] in s && !IsSpace(s[0]);
    s
  }

  /** The number that decimal digits spell. */
  function DigitsValue(s: string): int {
    if s == "" then 0 else 10 * DigitsValue(s[..|s| - 1]) + (s[|s| - 1] as int - '0' as int)
  }

  lemma {:induction false} FormatNatSpells(n: nat)
    ensures DigitsValue(FormatNat(n)) == n && (n > 0 ==> FormatNat(n)[0] != '0')
  {
    if n >= 10 {
      FormatNatSpells(n / 10);
      assert FormatNat(n)[..|FormatNat(n)| - 1] == FormatNat(n / 10);
    } else {
      assert FormatNat(n)[..0] == "";
    }
  }

  /** A number is written in decimal, with a sign when it is negative and without leading zeros. */
  lemma FormatIntSpells(n: int)
    ensures n >= 0 ==> DigitsValue(FormatInt(n)) == n && FormatInt(n)[0] != '-'
    ensures n < 0 ==> FormatInt(n)[0] == '-' && DigitsValue(FormatInt(n)[1..]) == -n
    ensures n > 0 ==> FormatInt(n)[0] != '0'
  {
    FormatNatSpells(if n < 0 then -n else n);
    if n < 0 {
      assert FormatInt(n)[1..] == FormatNat(-n);
    } else {
      assert FormatNat(n)[0] in FormatNat(n);
    }
  }

  /** Two numbers never name one resource. */
  lemma FormatIntInjective(m: int, n: int)
    requires FormatInt(m) == FormatInt(n)
    ensures m == n
  {
    FormatIntSpells(m);
    FormatIntSpells(n);
  }
}
