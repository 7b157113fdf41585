/**
 Middleware rewriting of operations, gateway-core/src/operation.rs.

 Request bytes are opaque; `parse` stands for `serde_json::from_slice` of a JSON
 object. Protocol names are taken as ASCII, so length in bytes is length.
 */
module OperationRewrite {
  import opened Common

  datatype Value =
    | Null
    | Bool(b: bool)
    | Num(n: int)
    | Str(s: string)
    | Arr(items: seq<Value>)
    | Obj(fields: map<string, Value>)

  type Object = map<string, Value>
  type Bytes = seq<nat>
  type Parser = Bytes -> Option<Object>

  datatype OperationKind = KGenerate | KGenerateImage | KSearch | KCountTokens | KProviderHttp

  datatype Feature = Tools | Vision | ReasoningControl | JsonSchema | NativeContinuation

  datatype Requirements = Requirements(operation: OperationKind, features: set<Feature>, requestedTokens: Option<nat>)

  datatype Session = Session(provider: string, payload: Object)

  datatype GenerateRequest = GenerateRequest(
    protocol: string,
    body: Object,
    context: Object,
    session: Option<Session>,
    sourceRequirements: Option<Requirements>,
    inherited: Option<Requirements>)

  /** `RawJsonPayload` and `RawHttpPayload`. */
  datatype RawPayload = RawPayload(protocol: string, body: Bytes, context: Object, translated: bool)

  datatype ImageKind = Generation | Edit

  datatype HttpMethod = Get | Post

  /** The addressed part of a Provider HTTP operation. */
  datatype HttpTarget = HttpTarget(
    endpoint: string, httpMethod: HttpMethod, query: Option<string>, headers: seq<(string, Bytes)>)

  datatype Operation =
    | Generate(request: GenerateRequest)
    | GenerateImage(imageKind: ImageKind, payload: RawPayload)
    | Search(payload: RawPayload)
    | CountTokens(payload: RawPayload)
    | ProviderHttp(target: HttpTarget, payload: RawPayload)

  datatype OperationError = InvalidProtocol | DirectTranslation | InvalidBody

  // ----- Capability requirements

  /** `contains_type`: some object inside, at any depth, has this `type`. */
  predicate ContainsType(v: Value, expected: string) {
    match v
    case Arr(items) => exists i :: 0 <= i < |items| && ContainsType(items[i], expected)
    case Obj(fields) =>
      || ("type" in fields && fields["type"] == Str(expected))
      || exists k :: k in fields && ContainsType(fields[k], expected)
    case _ => false
  }

  /** A step into an array or an object. */
  datatype Hop = Item(i: nat) | Field(key: string)

  function Enter(v: Value, hop: Hop): Option<Value> {
    if v.Arr? && hop.Item? && hop.i < |v.items| then Some(v.items[hop.i])
    else if v.Obj? && hop.Field? && hop.key in v.fields then Some(v.fields[hop.key])
    else None
  }

  /** The value that a path leads to. */
  function Follow(v: Value, path: seq<Hop>): Option<Value>
    decreases |path|
  {
    if path == [] then Some(v)
    else match Enter(v, path[0])
      case None => None
      case Some(u) => Follow(u, path[1..])
  }

  predicate TypedAt(v: Value, path: seq<Hop>, expected: string) {
    Follow(v, path + [Field("type")]) == Some(Str(expected))
  }

  lemma FollowFirst(v: Value, hop: Hop, rest: seq<Hop>)
    ensures Follow(v, [hop] + rest) ==
      match Enter(v, hop)
      case None => None
      case Some(u) => Follow(u, rest)
  {
    assert ([hop] + rest)[1..] == rest;
  }

  lemma {:induction false} TypedIsContained(v: Value, path: seq<Hop>, expected: string)
    requires TypedAt(v, path, expected)
    ensures ContainsType(v, expected)
    decreases |path|
  {
    if path == [] {
      assert [] + [Field("type")] == [Field("type")] + [];
      FollowFirst(v, Field("type"), []);
    } else {
      assert path + [Field("type")] == [path[0]] + (path[1..] + [Field("type")]);
      FollowFirst(v, path[0], path[1..] + [Field("type")]);
      TypedIsContained(Enter(v, path[0]).value, path[1..], expected);
    }
  }

  lemma {:induction false} ContainedIsTyped(v: Value, expected: string) returns (path: seq<Hop>)
    requires ContainsType(v, expected)
    ensures TypedAt(v, path, expected)
    decreases v
  {
    match v
    case Arr(items) =>
      var i :| 0 <= i < |items| && ContainsType(items[i], expected);
      var rest := ContainedIsTyped(items[i], expected);
      path := [Item(i)] + rest;
      FollowFirst(v, Item(i), rest + [Field("type")]);
      assert path + [Field("type")] == [Item(i)] + (rest + [Field("type")]);
    case Obj(fields) =>
      if "type" in fields && fields["type"] == Str(expected) {
        path := [];
        FollowFirst(v, Field("type"), []);
        assert [] + [Field("type")] == [Field("type")] + [];
      } else {
        var k :| k in fields && ContainsType(fields[k], expected);
        var rest := ContainedIsTyped(fields[k], expected);
        path := [Field(k)] + rest;
        FollowFirst(v, Field(k), rest + [Field("type")]);
        assert path + [Field("type")] == [Field(k)] + (rest + [Field("type")]);
      }
  }

  /** The recursive search finds exactly the objects that some path leads to. */
  lemma ContainsTypeIff(v: Value, expected: string)
    ensures ContainsType(v, expected) <==> exists path :: TypedAt(v, path, expected)
  {
    if ContainsType(v, expected) {
      var path := ContainedIsTyped(v, expected);
    }
    if path :| TypedAt(v, path, expected) {
      TypedIsContained(v, path, expected);
    }
  }

  const U64_MAX: int := 0xFFFF_FFFF_FFFF_FFFF

  function MaxOutputTokens(body: Object): Option<nat> {
    if "max_output_tokens" in body && body["max_output_tokens"].Num? && 0 < body["max_output_tokens"].n <= U64_MAX
    then Some(body["max_output_tokens"].n) else None
  }

  predicate WantsJsonSchema(body: Object) {
    && "text" in body && body["text"].Obj?
    && "format" in body["text"].fields && body["text"].fields["format"].Obj?
    && "type" in body["text"].fields["format"].fields
    && body["text"].fields["format"].fields["type"] == Str("json_schema")
  }

  function BodyFeatures(body: Object): set<Feature> {
    (if "tools" in body && body["tools"].Arr? && body["tools"].items != [] then {Tools} else {})
    + (if "input" in body && ContainsType(body["input"], "input_image") then {Vision} else {})
    + (if "reasoning" in body && body["reasoning"].Obj? then {ReasoningControl} else {})
    + (if WantsJsonSchema(body) then {JsonSchema} else {})
    + (if "previous_response_id" in body && body["previous_response_id"].Str? then {NativeContinuation} else {})
  }

  /** `GenerateRequest::requirements`: frozen ones win over the body. */
  function GenerateRequirements(r: GenerateRequest): Requirements {
    if r.sourceRequirements.Some? then r.sourceRequirements.value
    else Requirements(KGenerate, BodyFeatures(r.body) + (if r.inherited.Some? then r.inherited.value.features else {}),
                      MaxOutputTokens(r.body))
  }

  /** Which features a request needs, by what paths in its body lead to. */
  ghost predicate Needs(body: Object, feature: Feature) {
    match feature
    case Tools => exists first :: Follow(Obj(body), [Field("tools"), Item(0)]) == Some(first)
    case Vision =>
      exists path :: Follow(Obj(body), [Field("input")] + (path + [Field("type")])) == Some(Str("input_image"))
    case ReasoningControl => exists o :: Follow(Obj(body), [Field("reasoning")]) == Some(Obj(o))
    case JsonSchema => Follow(Obj(body), [Field("text"), Field("format"), Field("type")]) == Some(Str("json_schema"))
    case NativeContinuation => exists id :: Follow(Obj(body), [Field("previous_response_id")]) == Some(Str(id))
  }

  lemma FollowTwo(v: Value, a: Hop, b: Hop)
    ensures Follow(v, [a, b]) == match Follow(v, [a])
      case Some(u) => Follow(u, [b])
      case None => None
  {
    assert [a, b] == [a] + [b] && [a] == [a] + [];
    FollowFirst(v, a, [b]);
    FollowFirst(v, a, []);
  }

  lemma FollowField(body: Object, key: string)
    ensures Follow(Obj(body), [Field(key)]) == if key in body then Some(body[key]) else None
  {
    assert [Field(key)] == [Field(key)] + [];
    FollowFirst(Obj(body), Field(key), []);
  }

  lemma VisionIff(body: Object)
    ensures Vision in BodyFeatures(body) <==> Needs(body, Vision)
  {
    forall path: seq<Hop>
      ensures Follow(Obj(body), [Field("input")] + (path + [Field("type")])) ==
        if "input" in body then Follow(body["input"], path + [Field("type")]) else None
    {
      FollowFirst(Obj(body), Field("input"), path + [Field("type")]);
    }
    if "input" in body {
      ContainsTypeIff(body["input"], "input_image");
      if path :| TypedAt(body["input"], path, "input_image") {
        assert Follow(Obj(body), [Field("input")] + (path + [Field("type")])) == Some(Str("input_image"));
      }
      if Needs(body, Vision) {
        var path :| Follow(Obj(body), [Field("input")] + (path + [Field("type")])) == Some(Str("input_image"));
        assert TypedAt(body["input"], path, "input_image");
      }
    }
  }

  lemma ToolsIff(body: Object)
    ensures Tools in BodyFeatures(body) <==> Needs(body, Tools)
  {
    FollowField(body, "tools");
    FollowTwo(Obj(body), Field("tools"), Item(0));
    if "tools" in body {
      assert [Item(0)] == [Item(0)] + [];
      FollowFirst(body["tools"], Item(0), []);
    }
  }

  lemma JsonSchemaIff(body: Object)
    ensures JsonSchema in BodyFeatures(body) <==> Needs(body, JsonSchema)
  {
    FollowField(body, "text");
    var rest := [Field("format"), Field("type")];
    assert [Field("text"), Field("format"), Field("type")] == [Field("text")] + rest;
    FollowFirst(Obj(body), Field("text"), rest);
    if "text" in body {
      FollowTwo(body["text"], Field("format"), Field("type"));
      if body["text"].Obj? {
        FollowField(body["text"].fields, "format");
        if "format" in body["text"].fields && body["text"].fields["format"].Obj? {
          FollowField(body["text"].fields["format"].fields, "type");
        }
      }
    }
  }

  /** Unfrozen requirements are what the body needs and what was inherited; frozen ones ignore both. */
  lemma RequirementsIff(r: GenerateRequest, feature: Feature)
    ensures r.sourceRequirements.Some? ==> GenerateRequirements(r) == r.sourceRequirements.value
    ensures r.sourceRequirements.None? ==>
      (feature in GenerateRequirements(r).features <==>
        Needs(r.body, feature) || (r.inherited.Some? && feature in r.inherited.value.features))
    ensures r.sourceRequirements.None? ==> GenerateRequirements(r).operation == KGenerate
    ensures r.sourceRequirements.None? ==> forall n: nat ::
      GenerateRequirements(r).requestedTokens == Some(n) <==>
        0 < n <= U64_MAX && Follow(Obj(r.body), [Field("max_output_tokens")]) == Some(Num(n))
  {
    FollowField(r.body, "max_output_tokens");
    FollowField(r.body, "reasoning");
    FollowField(r.body, "previous_response_id");
    ToolsIff(r.body);
    VisionIff(r.body);
    JsonSchemaIff(r.body);
  }

  function KindOf(op: Operation): OperationKind {
    match op
    case Generate(_) => KGenerate
    case GenerateImage(_, _) => KGenerateImage
    case Search(_) => KSearch
    case CountTokens(_) => KCountTokens
    case ProviderHttp(_, _) => KProviderHttp
  }

  function RequirementsOf(op: Operation): Requirements {
    if op.Generate? then GenerateRequirements(op.request) else Requirements(KindOf(op), {}, None)
  }

  function Protocol(op: Operation): string { if op.Generate? then op.request.protocol else op.payload.protocol }

  function Context(op: Operation): Object { if op.Generate? then op.request.context else op.payload.context }

  function SessionOf(op: Operation): Option<Session> { if op.Generate? then op.request.session else None }

  /** `protocol_was_translated`. */
  predicate Translated(op: Operation) {
    if op.Generate? then op.request.sourceRequirements.Some? else op.payload.translated
  }

  // ----- Rewriting

  predicate IsControl(c: char) { c < ' ' || '\U{7F}' <= c <= '\U{9F}' }

  /** `validate_text(_, 64, true, None)`. */
  predicate ValidProtocol(p: string) {
    0 < |p| <= 64 && (forall i :: 0 <= i < |p| ==> !IsControl(p[i])) && !("__" <= p)
  }

  function ReplaceRaw(raw: RawPayload, target: Option<string>, body: Bytes, context: Object): RawPayload {
    RawPayload(if target.Some? then target.value else raw.protocol, body, context, raw.translated || target.Some?)
  }

  /** `replace_protocol_wire_inner` with a body: a target makes it a translation. */
  function ReplaceInner(op: Operation, target: Option<string>, body: Bytes, context: Object, parse: Parser)
    : Result<Operation, OperationError>
  {
    match op
    case Generate(r) =>
      var requirements := GenerateRequirements(r);
      (match parse(body)
       case None => Err(InvalidBody)
       case Some(parsed) =>
         Ok(Generate(r.(protocol := if target.Some? then target.value else r.protocol,
                        body := parsed,
                        context := context,
                        sourceRequirements := if target.Some? then Some(requirements) else r.sourceRequirements))))
    case GenerateImage(k, raw) => Ok(GenerateImage(k, ReplaceRaw(raw, target, body, context)))
    case Search(raw) => Ok(Search(ReplaceRaw(raw, target, body, context)))
    case CountTokens(raw) => Ok(CountTokens(ReplaceRaw(raw, target, body, context)))
    case ProviderHttp(t, raw) => Ok(ProviderHttp(t, ReplaceRaw(raw, target, body, context)))
  }

  /** `translate_protocol_wire`. */
  function Translate(op: Operation, target: string, body: Bytes, parse: Parser): Result<Operation, OperationError> {
    if !ValidProtocol(target) then Err(InvalidProtocol)
    else if Protocol(op) == target || Translated(op) then Err(DirectTranslation)
    else ReplaceInner(op, Some(target), body, Context(op), parse)
  }

  /** `replace_middleware_wire`. */
  function ReplaceMiddlewareWire(op: Operation, protocol: string, body: Bytes, parse: Parser)
    : Result<Operation, OperationError>
  {
    if Protocol(op) != protocol then Translate(op, protocol, body, parse)
    else ReplaceInner(op, None, body, Context(op), parse)
  }

  /** `with_native_encoded_body`. */
  function NativeEncoded(r: GenerateRequest, protocol: string, body: Object): Result<GenerateRequest, OperationError> {
    if !ValidProtocol(protocol) then Err(InvalidProtocol)
    else Ok(r.(protocol := protocol, body := body, sourceRequirements := Some(GenerateRequirements(r))))
  }

  // ----- Sequences of rewrites

  datatype Rewrite = Rewrite(protocol: string, body: Bytes)

  /** All rewrites in turn; the first error ends it. */
  function Chain(op: Operation, rewrites: seq<Rewrite>, parse: Parser): Result<Operation, OperationError> {
    if rewrites == [] then Ok(op)
    else
      var n := |rewrites| - 1;
      match Chain(op, rewrites[..n], parse)
      case Err(e) => Err(e)
      case Ok(before) => ReplaceMiddlewareWire(before, rewrites[n].protocol, rewrites[n].body, parse)
  }

  /** What every rewrite keeps. */
  ghost predicate SameHost(a: Operation, b: Operation) {
    && KindOf(a) == KindOf(b) && Context(a) == Context(b) && SessionOf(a) == SessionOf(b)
    && (a.Generate? ==> b.Generate? && a.request.inherited == b.request.inherited)
    && (a.ProviderHttp? ==> b.ProviderHttp? && a.target == b.target)
    && (a.GenerateImage? ==> b.GenerateImage? && a.imageKind == b.imageKind)
  }

  /** The operation carries the rewritten body: parsed for Generate, as bytes otherwise. */
  ghost predicate Carries(op: Operation, body: Bytes, parse: Parser) {
    if op.Generate? then parse(body) == Some(op.request.body) else op.payload.body == body
  }

  /** A rewrite is refused exactly for a bad name, a second translation, or a bad Generate body. */
  lemma RewriteAcceptedIff(op: Operation, protocol: string, body: Bytes, parse: Parser)
    ensures var r := ReplaceMiddlewareWire(op, protocol, body, parse);
      var changes := protocol != Protocol(op);
      && (r == Err(InvalidProtocol) <==> changes && !ValidProtocol(protocol))
      && (r == Err(DirectTranslation) <==> changes && ValidProtocol(protocol) && Translated(op))
      && (r.Ok? <==> (changes ==> ValidProtocol(protocol) && !Translated(op)) && (op.Generate? ==> parse(body).Some?))
  {
  }

  lemma RewriteStep(op: Operation, protocol: string, body: Bytes, parse: Parser)
    requires ReplaceMiddlewareWire(op, protocol, body, parse).Ok?
    ensures var op' := ReplaceMiddlewareWire(op, protocol, body, parse).value;
      && SameHost(op, op') && Protocol(op') == protocol && Carries(op', body, parse)
      && (Translated(op) ==> Protocol(op') == Protocol(op))
      && (Translated(op') <==> Translated(op) || protocol != Protocol(op))
      && (Translated(op') ==> RequirementsOf(op') == RequirementsOf(op))
  {
  }

  /** After any accepted rewrites the operation carries the body and the protocol of the last one. */
  lemma LastRewriteWins(op: Operation, rewrites: seq<Rewrite>, parse: Parser)
    requires rewrites != [] && Chain(op, rewrites, parse).Ok?
    ensures var last := rewrites[|rewrites| - 1];
      var op' := Chain(op, rewrites, parse).value;
      Carries(op', last.body, parse) && Protocol(op') == last.protocol
  {
    var n := |rewrites| - 1;
    RewriteStep(Chain(op, rewrites[..n], parse).value, rewrites[n].protocol, rewrites[n].body, parse);
  }

  lemma ChainSplits(op: Operation, rewrites: seq<Rewrite>, i: nat, parse: Parser)
    requires i < |rewrites| && Chain(op, rewrites, parse).Ok?
    ensures Chain(op, rewrites[..i], parse).Ok? && Chain(op, rewrites[..i + 1], parse).Ok?
    ensures var before := Chain(op, rewrites[..i], parse).value;
      Chain(op, rewrites[..i + 1], parse) ==
      ReplaceMiddlewareWire(before, rewrites[i].protocol, rewrites[i].body, parse)
    decreases |rewrites|
  {
    var n := |rewrites| - 1;
    if i < n {
      ChainSplits(op, rewrites[..n], i, parse);
      assert rewrites[..n][..i] == rewrites[..i] && rewrites[..n][..i + 1] == rewrites[..i + 1];
    } else {
      assert rewrites[..i + 1] == rewrites;
    }
  }

  /** The operation after the first `i` rewrites. */
  function After(op: Operation, rewrites: seq<Rewrite>, i: nat, parse: Parser): Operation
    requires i <= |rewrites| && Chain(op, rewrites[..i], parse).Ok?
  {
    Chain(op, rewrites[..i], parse).value
  }

  /** Every rewrite keeps kind, context, session, and what an HTTP operation addresses. */
  lemma {:induction false} RewritesKeepHost(op: Operation, rewrites: seq<Rewrite>, parse: Parser)
    requires Chain(op, rewrites, parse).Ok?
    ensures SameHost(op, Chain(op, rewrites, parse).value)
    decreases |rewrites|
  {
    if rewrites != [] {
      var n := |rewrites| - 1;
      RewritesKeepHost(op, rewrites[..n], parse);
      RewriteStep(Chain(op, rewrites[..n], parse).value, rewrites[n].protocol, rewrites[n].body, parse);
    }
  }

  lemma {:induction false} TranslatedStaysFrozen(op: Operation, rewrites: seq<Rewrite>, i: nat, j: nat, parse: Parser)
    requires i <= j <= |rewrites| && Chain(op, rewrites, parse).Ok?
    requires Chain(op, rewrites[..i], parse).Ok? && Translated(After(op, rewrites, i, parse))
    ensures Chain(op, rewrites[..j], parse).Ok?
    ensures var a, b := After(op, rewrites, i, parse), After(op, rewrites, j, parse);
      Translated(b) && Protocol(b) == Protocol(a) && RequirementsOf(b) == RequirementsOf(a)
    decreases j - i
  {
    if i < j {
      ChainSplits(op, rewrites, i, parse);
      RewriteStep(After(op, rewrites, i, parse), rewrites[i].protocol, rewrites[i].body, parse);
      TranslatedStaysFrozen(op, rewrites, i + 1, j, parse);
    }
  }

  /**
   Across any sequence of rewrites at most one changes the protocol, and from then
   on the requirements are those held just before the change.
   */
  lemma AtMostOneTranslation(op: Operation, rewrites: seq<Rewrite>, i: nat, j: nat, parse: Parser)
    requires i < j <= |rewrites| && Chain(op, rewrites, parse).Ok?
    ensures Chain(op, rewrites[..i], parse).Ok? && Chain(op, rewrites[..i + 1], parse).Ok?
    ensures Chain(op, rewrites[..j], parse).Ok?
    ensures Protocol(After(op, rewrites, i, parse)) != Protocol(After(op, rewrites, i + 1, parse)) ==>
      && !Translated(After(op, rewrites, i, parse))
      && Protocol(After(op, rewrites, j, parse)) == Protocol(After(op, rewrites, i + 1, parse))
      && RequirementsOf(After(op, rewrites, j, parse)) == RequirementsOf(After(op, rewrites, i, parse))
  {
    ChainSplits(op, rewrites, i, parse);
    if j < |rewrites| {
      ChainSplits(op, rewrites, j, parse);
    } else {
      assert rewrites[..j] == rewrites;
    }
    var before, after := After(op, rewrites, i, parse), After(op, rewrites, i + 1, parse);
    RewriteStep(before, rewrites[i].protocol, rewrites[i].body, parse);
    if Protocol(before) != Protocol(after) {
      TranslatedStaysFrozen(op, rewrites, i + 1, j, parse);
    }
  }

  /** Native encoding after any rewrites keeps requirements, context and session, whatever the new body. */
  lemma NativeEncodingKeepsAdmission(op: Operation, rewrites: seq<Rewrite>, parse: Parser, protocol: string,
                                     body: Object)
    requires Chain(op, rewrites, parse).Ok? && Chain(op, rewrites, parse).value.Generate? && ValidProtocol(protocol)
    ensures var before := Chain(op, rewrites, parse).value;
      var encoded := NativeEncoded(before.request, protocol, body);
      && encoded.Ok? && encoded.value.protocol == protocol && encoded.value.body == body
      && RequirementsOf(Generate(encoded.value)) == RequirementsOf(before)
      && SameHost(op, Generate(encoded.value))
  {
    RewritesKeepHost(op, rewrites, parse);
  }

  /** A natively encoded request counts as translated: no later rewrite may change its protocol. */
  lemma NativeEncodingEndsTranslation(r: GenerateRequest, protocol: string, body: Object, target: string,
                                      wire: Bytes, parse: Parser)
    requires ValidProtocol(protocol) && target != protocol
    ensures var encoded := NativeEncoded(r, protocol, body);
      encoded.Ok? && ReplaceMiddlewareWire(Generate(encoded.value), target, wire, parse).Err?
  {
  }
}
