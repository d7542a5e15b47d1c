/**
  The resource a request is authorized against. A rule names it by a path of message fields: the
  generator checks the path against the request's type, the middleware follows it in the request.
*/
module ResourcePath {
  import opened Options
  import opened ProtoTypes
  import opened Sequences

  datatype Rule = Rule(required: bool, action: string, resourceType: string, resourceId: string, resourceIdField: string)

  datatype RuleError =
    | ActionMissing | ActionSpaced | TypeMissing | TypeSpaced | TargetCount | IdSpaced | PathSpaced
    | EmptySegment(at: nat) | FieldUnknown(at: nat) | FieldRepeated(at: nat) | FieldInOneof(at: nat)
    | NotMessage(at: nat) | BadKind(at: nat)

  predicate Trimmed(s: string) {
    s == TrimSpace(s)
  }

  predicate ValidKind(kind: Kind) {
    kind.StringKind? || IsSigned(kind) || IsUnsigned(kind)
  }

  // The check against the type.

  /** The first fault of a path from segment k on, in a message type. */
  function PathFault(schema: Schema, current: string, segments: seq<string>, k: nat): Option<RuleError>
    requires WellFormed(schema) && current in schema && k <= |segments|
    decreases |segments| - k
  {
    if k == |segments| then None
    else if segments[k] == "" then Some(EmptySegment(k))
    else if segments[k] !in schema[current] then Some(FieldUnknown(k))
    else
      var f := schema[current][segments[k]];
      if Repeated(f) then Some(FieldRepeated(k))
      else if f.realOneof then Some(FieldInOneof(k))
      else if k < |segments| - 1 then
        if IsMessage(f.kind) then PathFault(schema, f.message, segments, k + 1) else Some(NotMessage(k))
      else if ValidKind(f.kind) then None
      else Some(BadKind(k))
  }

  /** A rule that names its resource: tidy action and type, and exactly one tidy target. */
  predicate Named(rule: Rule) {
    && rule.action != "" && Trimmed(rule.action)
    && rule.resourceType != "" && Trimmed(rule.resourceType)
    && (rule.resourceId == "") != (rule.resourceIdField == "")
    && Trimmed(rule.resourceId) && Trimmed(rule.resourceIdField)
  }

  /** Text that is not empty and has no white space at its ends. */
  predicate Tidy(s: string) {
    s != "" && !IsSpace(s[0]) && !IsSpace(s[|s| - 1])
  }

  /** A rule names its resource exactly when action and type are tidy, and so is one of identifier and path, the other being empty. */
  lemma NamedExactlyWhen(rule: Rule)
    ensures Named(rule) <==>
      && Tidy(rule.action) && Tidy(rule.resourceType)
      && ((Tidy(rule.resourceId) && rule.resourceIdField == "") || (rule.resourceId == "" && Tidy(rule.resourceIdField)))
  {
    TrimSpaceMeaning(rule.action);
    TrimSpaceMeaning(rule.resourceType);
    TrimSpaceMeaning(rule.resourceId);
    TrimSpaceMeaning(rule.resourceIdField);
    hide TrimSpace, IsSpace;
  }

  method ValidateCheckRule(schema: Schema, rule: Rule, input: string) returns (err: Option<RuleError>)
    requires WellFormed(schema) && input in schema
    ensures err.None? <==> rule.required ==>
      Named(rule) && (rule.resourceIdField != "" ==> PathFault(schema, input, Split(rule.resourceIdField, '.'), 0).None?)
    ensures rule.required && Named(rule) && rule.resourceIdField != "" ==>
      err == PathFault(schema, input, Split(rule.resourceIdField, '.'), 0)
  {
    if !rule.required {
      return None;
    }
    if TrimSpace(rule.action) == "" {
      return Some(ActionMissing);
    }
    if rule.action != TrimSpace(rule.action) {
      return Some(ActionSpaced);
    }
    if TrimSpace(rule.resourceType) == "" {
      return Some(TypeMissing);
    }
    if rule.resourceType != TrimSpace(rule.resourceType) {
      return Some(TypeSpaced);
    }
    if (rule.resourceId == "") == (rule.resourceIdField == "") {
      return Some(TargetCount);
    }
    if rule.resourceId != "" {
      if rule.resourceId != TrimSpace(rule.resourceId) {
        return Some(IdSpaced);
      }
      return None;
    }
    if rule.resourceIdField != TrimSpace(rule.resourceIdField) {
      return Some(PathSpaced);
    }
    var current := input;
    var segments := Split(rule.resourceIdField, '.');
    for index := 0 to |segments|
      invariant current in schema
      invariant PathFault(schema, input, segments, 0) == PathFault(schema, current, segments, index)
    {
      var segment := segments[index];
      if segment == "" {
        return Some(EmptySegment(index));
      }
      if segment !in schema[current] {
        return Some(FieldUnknown(index));
      }
      var field := schema[current][segment];
      if field.isList || field.isMap {
        return Some(FieldRepeated(index));
      }
      if field.realOneof {
        return Some(FieldInOneof(index));
      }
      if index < |segments| - 1 {
        if !IsMessage(field.kind) {
          return Some(NotMessage(index));
        }
        current := field.message;
        continue;
      }
      if IsMessage(field.kind) || !ValidKind(field.kind) {
        return Some(BadKind(index));
      }
    }
    err := None;
  }

  // Following the path in a request.

  datatype Outcome =
    | Resolved(id: string)
    | NoRequest | Unknown(at: nat) | InOneof(at: nat) | Unavailable(at: nat) | NotSingular | UnsupportedKind | EmptyValue

  function Terminal(f: Field, value: Value): Outcome {
    if f.kind.StringKind? && value.Text? then
      if TrimSpace(value.text) == "" then EmptyValue else Resolved(value.text)
    else if (IsSigned(f.kind) || IsUnsigned(f.kind)) && value.Number? then Resolved(FormatInt(value.number))
    else UnsupportedKind
  }

  function Evaluate(schema: Schema, m: Message, segments: seq<string>, k: nat): Outcome
    requires WellFormed(schema) && Conforms(schema, m) && k < |segments|
    decreases |segments| - k
  {
    var name := segments[k];
    if name !in schema[m.messageType] then Unknown(k)
    else
      var f := schema[m.messageType][name];
      if f.realOneof then InOneof(k)
      else if k < |segments| - 1 then
        if !IsMessage(f.kind) || Repeated(f) || name !in m.fields then Unavailable(k)
        else Evaluate(schema, m.fields[name].message, segments, k + 1)
      else if Repeated(f) then NotSingular
      else if f.hasPresence && name !in m.fields then Unavailable(k)
      else Terminal(f, Get(m, name, f))
  }

  /** No request stands for a request that is not a valid message. */
  method ResourceIdFromRequest(schema: Schema, fieldPath: string, request: Option<Message>) returns (out: Outcome)
    requires WellFormed(schema) && (request.Some? ==> Conforms(schema, request.value))
    ensures out == if request.None? then NoRequest else Evaluate(schema, request.value, Split(fieldPath, '.'), 0)
  {
    hide Split, TrimSpace, FormatInt, Blank;
    if request.None? {
      return NoRequest;
    }
    var current := request.value;
    var segments := Split(fieldPath, '.');
    var index := 0;
    while true
      invariant Conforms(schema, current) && index < |segments|
      invariant Evaluate(schema, request.value, segments, 0) == Evaluate(schema, current, segments, index)
      decreases |segments| - index
    {
      var segment := segments[index];
      if segment !in schema[current.messageType] {
        return Unknown(index);
      }
      var field := schema[current.messageType][segment];
      if field.realOneof {
        return InOneof(index);
      }
      if index < |segments| - 1 {
        if !IsMessage(field.kind) || field.isList || field.isMap || segment !in current.fields {
          return Unavailable(index);
        }
        current := current.fields[segment].message;
        index := index + 1;
        continue;
      }
      if field.isList || field.isMap {
        return NotSingular;
      }
      if field.hasPresence && segment !in current.fields {
        return Unavailable(index);
      }
      var value := Get(current, segment, field);
      var resourceId: string;
      if field.kind.StringKind? {
        resourceId := value.text;
      } else if IsSigned(field.kind) || IsUnsigned(field.kind) {
        resourceId := FormatInt(value.number);
      } else {
        return UnsupportedKind;
      }
      TrimSpaceMeaning(resourceId);
      if TrimSpace(resourceId) == "" {
        return EmptyValue;
      }
      return Resolved(resourceId);
    }
  }

  // The check and the evaluation agree.

  /** What a path leads to in a message, by following the fields that are set: the value, or where the path ends early. */
  datatype Reached = Value(value: ProtoTypes.Value) | Absent(at: nat)

  function Follow(schema: Schema, m: Message, segments: seq<string>, k: nat): Reached
    requires k < |segments|
    decreases |segments| - k
  {
    if segments[k] in m.fields then
      if k == |segments| - 1 then Value(m.fields[segments[k]])
      else if m.fields[segments[k]].Embedded? then Follow(schema, m.fields[segments[k]].message, segments, k + 1)
      else Absent(k)
    else if k == |segments| - 1 && m.messageType in schema && segments[k] in schema[m.messageType]
            && !schema[m.messageType][segments[k]].hasPresence then
      Value(DefaultValue(schema[m.messageType][segments[k]].kind))
    else Absent(k)
  }

  /**
    On an accepted path the evaluation fails for two reasons only: a field on the path is absent, or
    the value found is blank text. Otherwise it resolves to the value found.
   */
  lemma {:induction false} AcceptedPathEvaluates(schema: Schema, m: Message, segments: seq<string>, k: nat)
    requires WellFormed(schema) && Conforms(schema, m) && k < |segments|
    requires PathFault(schema, m.messageType, segments, k).None?
    ensures match Follow(schema, m, segments, k)
      case Absent(at) => Evaluate(schema, m, segments, k) == Unavailable(at)
      case Value(Text(text)) => Evaluate(schema, m, segments, k) == if Blank(text) then EmptyValue else Resolved(text)
      case Value(Number(n)) => Evaluate(schema, m, segments, k) == Resolved(FormatInt(n))
      case Value(_) => false
    decreases |segments| - k
  {
    var name := segments[k];
    if k < |segments| - 1 {
      if name in m.fields {
        AcceptedPathEvaluates(schema, m.fields[name].message, segments, k + 1);
      }
    } else {
      var value := Get(m, name, schema[m.messageType][name]);
      if value.Text? {
        TrimSpaceMeaning(value.text);
      }
    }
  }

  /** A path that resolves in some message of a type is accepted for the type. */
  lemma {:induction false} ResolvedPathAccepted(schema: Schema, m: Message, segments: seq<string>, k: nat)
    requires WellFormed(schema) && Conforms(schema, m) && k < |segments|
    requires Evaluate(schema, m, segments, k).Resolved?
    ensures PathFault(schema, m.messageType, segments, k).None?
    ensures IsName(segments[k]) && IsName(segments[|segments| - 1])
    decreases |segments| - k
  {
    if k < |segments| - 1 {
      ResolvedPathAccepted(schema, m.fields[segments[k]].message, segments, k + 1);
    }
    assert IsName(segments[k]);
  }

  /** A message of the type in which an accepted path resolves. */
  function Witness(schema: Schema, current: string, segments: seq<string>, k: nat): Message
    requires WellFormed(schema) && current in schema && k < |segments|
    requires PathFault(schema, current, segments, k).None?
    decreases |segments| - k
  {
    var f := schema[current][segments[k]];
    Message(current, map[segments[k] :=
      if k < |segments| - 1 then Embedded(Witness(schema, f.message, segments, k + 1))
      else if f.kind.StringKind? then Text("x")
      else Number(0)])
  }

  lemma {:induction false} WitnessResolves(schema: Schema, current: string, segments: seq<string>, k: nat)
    requires WellFormed(schema) && current in schema && k < |segments|
    requires PathFault(schema, current, segments, k).None?
    ensures Conforms(schema, Witness(schema, current, segments, k))
    ensures Witness(schema, current, segments, k).messageType == current
    ensures Evaluate(schema, Witness(schema, current, segments, k), segments, k).Resolved?
    decreases |segments| - k
  {
    if k < |segments| - 1 {
      WitnessResolves(schema, schema[current][segments[k]].message, segments, k + 1);
    } else {
      TrimSpaceMeaning("x");
    }
  }

  ghost predicate SomeResolves(schema: Schema, input: string, path: string)
    requires WellFormed(schema)
  {
    exists m: Message ::
      m.messageType == input && Conforms(schema, m) && Evaluate(schema, m, Split(path, '.'), 0).Resolved?
  }

  /** The check accepts a path for a type exactly when the path resolves in some message of the type. */
  lemma PathAgreement(schema: Schema, input: string, path: string)
    requires WellFormed(schema) && input in schema
    ensures Trimmed(path) && PathFault(schema, input, Split(path, '.'), 0).None? <==> SomeResolves(schema, input, path)
  {
    var segments := Split(path, '.');
    if Trimmed(path) && PathFault(schema, input, segments, 0).None? {
      WitnessResolves(schema, input, segments, 0);
    }
    if SomeResolves(schema, input, path) {
      var m: Message :| m.messageType == input && Conforms(schema, m) && Evaluate(schema, m, segments, 0).Resolved?;
      ResolvedPathAccepted(schema, m, segments, 0);
      JoinSplit(path, '.');
      JoinEnds(segments);
      TrimSpaceMeaning(path);
    }
  }

  /** A joined path of names begins and ends with a letter of a name. */
  lemma {:induction false} JoinEnds(segments: seq<string>)
    requires |segments| > 0 && IsName(segments[0]) && IsName(segments[|segments| - 1])
    ensures var path := Join(segments, '.'); path != "" && !IsSpace(path[0]) && !IsSpace(path[|path| - 1])
  {
    JoinLast(segments);
    assert segments[0][0] in segments[0];
  }

  lemma {:induction false} JoinLast(segments: seq<string>)
    requires |segments| > 0 && IsName(segments[|segments| - 1])
    ensures var path := Join(segments, '.'); path != "" && !IsSpace(path[|path| - 1])
  {
    if |segments| == 1 {
      assert segments[0][|segments[0]| - 1] in segments[0];
    } else {
      JoinLast(segments[1..]);
    }
  }

  /** A singular integer field that is absent and has no presence counts as 0, and such a string field as empty. */
  lemma AbsentCountsAsDefault(schema: Schema, m: Message, name: string)
    requires WellFormed(schema) && Conforms(schema, m) && PathFault(schema, m.messageType, [name], 0).None?
    requires name !in m.fields && !schema[m.messageType][name].hasPresence
    ensures Evaluate(schema, m, [name], 0) == if schema[m.messageType][name].kind.StringKind? then EmptyValue else Resolved("0")
  {
    TrimSpaceMeaning("");
    assert FormatNat(0) == "0";
  }

  /** What a path may end in: a singular string or integer field outside of real oneofs. */
  lemma LastSegment(schema: Schema, input: string, name: string)
    requires WellFormed(schema) && input in schema && name != ""
    ensures PathFault(schema, input, [name], 0).None? <==>
      && name in schema[input] && !schema[input][name].isList && !schema[input][name].isMap && !schema[input][name].realOneof
      && schema[input][name].kind in {StringKind, Int32Kind, Sint32Kind, Sfixed32Kind, Int64Kind, Sint64Kind, Sfixed64Kind,
                                      Uint32Kind, Fixed32Kind, Uint64Kind, Fixed64Kind}
  {
  }

  // The rule at request time.

  datatype Target = Resource(id: string) | TargetMissing | InvalidInput(reason: Outcome)

  function TargetOf(schema: Schema, rule: Rule, request: Option<Message>): Target
    requires WellFormed(schema) && (request.Some? ==> Conforms(schema, request.value))
  {
    if rule.resourceId != "" then Resource(rule.resourceId)
    else if rule.resourceIdField == "" then TargetMissing
    else if request.None? then InvalidInput(NoRequest)
    else
      var out := Evaluate(schema, request.value, Split(rule.resourceIdField, '.'), 0);
      if out.Resolved? then Resource(out.id) else InvalidInput(out)
  }

  /** How the middleware finds the resource of a rule that requires a check. */
  method FindTarget(schema: Schema, rule: Rule, request: Option<Message>) returns (target: Target)
    requires WellFormed(schema) && (request.Some? ==> Conforms(schema, request.value))
    ensures target == TargetOf(schema, rule, request)
    ensures rule.resourceId != "" ==> target == Resource(rule.resourceId)
    ensures target == TargetMissing <==> rule.resourceId == "" && rule.resourceIdField == ""
    ensures rule.resourceId == "" && rule.resourceIdField != "" && request.Some? ==>
      match Evaluate(schema, request.value, Split(rule.resourceIdField, '.'), 0)
      case Resolved(id) => target == Resource(id)
      case failure => target == InvalidInput(failure)
  {
    var resourceId := rule.resourceId;
    if resourceId == "" {
      var fieldPath := rule.resourceIdField;
      if fieldPath == "" {
        return TargetMissing;
      }
      var resolved := ResourceIdFromRequest(schema, fieldPath, request);
      if !resolved.Resolved? {
        return InvalidInput(resolved);
      }
      resourceId := resolved.id;
    }
    target := Resource(resourceId);
  }

  /** A generated rule never fails at request time for a reason other than an absent field or a blank value of the request. */
  lemma GeneratedRuleFindsTarget(schema: Schema, rule: Rule, request: Message)
    requires WellFormed(schema) && Conforms(schema, request) && Named(rule)
    requires rule.resourceIdField != "" ==> PathFault(schema, request.messageType, Split(rule.resourceIdField, '.'), 0).None?
    ensures match TargetOf(schema, rule, Some(request))
      case Resource(id) => !Blank(id)
      case TargetMissing => false
      case InvalidInput(reason) => reason.Unavailable? || reason.EmptyValue?
  {
    TrimSpaceMeaning(rule.resourceId);
    if rule.resourceId == "" {
      AcceptedPathEvaluates(schema, request, Split(rule.resourceIdField, '.'), 0);
    }
  }
}
