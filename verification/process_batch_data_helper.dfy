/**
 * ProcessBatchDataHelper: the `<ows:Batch>` envelope around the method
 * blocks, the OnError attribute, and a reader for the whole batch.
 */
module ProcessBatchDataHelper {
  import opened Wrappers
  import opened Text
  import opened Actions = OnErrorAction
  import opened BatchDataCommandType
  import BatchDataColumn
  import BatchDataMethod

  type Method = BatchDataMethod.Method
  type MethodMeaning = BatchDataMethod.MethodMeaning
  type Error = BatchDataMethod.Error
  type IsoFormatter = BatchDataColumn.IsoFormatter

  /**
   * The Guid.NewGuid() text the i-th method of a batch would receive. Only
   * methods without an id of their own consult it.
   */
  type GuidSource = nat -> string

  // The pieces of BatchFormat around its two placeholders.

  /** `<?xml version="1.0" encoding="UTF-8"?><ows:Batch OnError="`. */
  const BatchOpen: string := "<?xml " + "version=\"1.0\" " + "encoding=" + "\"UTF-8\"?>" + "<ows:Batch " + "OnError=\""
  const BatchMiddle: string := "\">"
  const BatchClose: string := "</ows:Batch>"

  /** OnErrorString: Continue continues; Return and every undeclared value return. */
  function OnErrorString(errorAction: OnErrorAction): (r: string)
    ensures r == "Continue" <==> errorAction == Continue
    ensures r == "Return" <==> errorAction != Continue
  {
    match errorAction
    case Continue => "Continue"
    case _ => "Return"
  }

  /** Of the casts `(OnErrorAction)n`, only 1 continues. */
  lemma OnErrorStringOfCast(n: int)
    ensures OnErrorString(Actions.FromValue(n)) == "Continue" <==> n == 1
    ensures OnErrorString(Actions.FromValue(n)) == "Return" <==> n != 1
  {
  }

  /** The method blocks appended in list order; the first invalid command aborts. */
  function MethodsXml(methods: seq<Method>, iso: IsoFormatter, guids: GuidSource): (r: Result<string, Error>)
    ensures r.Failure? <==> AnyInvalid(methods)
    ensures r.Failure? ==> r.error == BatchDataMethod.InvalidCommand
    decreases |methods|
  {
    if methods == [] then Success("")
    else
      var n := |methods| - 1;
      var init := MethodsXml(methods[..n], iso, guids);
      var last := BatchDataMethod.ToString(methods[n], iso, guids(n));
      InvalidSnoc(methods);
      if init.Failure? then Failure(init.error)
      else if last.Failure? then Failure(last.error)
      else Success(init.value + last.value)
  }

  /** Some method of the list has an undeclared command. */
  predicate AnyInvalid(methods: seq<Method>)
  {
    exists i :: 0 <= i < |methods| && methods[i].command.Other?
  }

  /** A non-empty list has an invalid method exactly when one before the last is, or the last is. */
  lemma InvalidSnoc(methods: seq<Method>)
    requires methods != []
    ensures AnyInvalid(methods) <==> AnyInvalid(methods[..|methods| - 1]) || methods[|methods| - 1].command.Other?
  {
    var n := |methods| - 1;
    assert forall i :: 0 <= i < n ==> methods[..n][i] == methods[i];
  }

  /** GetBatch(methods, errorAction). */
  function GetBatch(methods: seq<Method>, errorAction: OnErrorAction, iso: IsoFormatter, guids: GuidSource)
    : (r: Result<string, Error>)
    ensures r.Failure? <==> AnyInvalid(methods)
    ensures r.Failure? ==> r.error == BatchDataMethod.InvalidCommand
    ensures r.Success? ==> BatchOpen + OnErrorString(errorAction) + BatchMiddle <= r.value
  {
    var methodsXml :- MethodsXml(methods, iso, guids);
    var errorString := OnErrorString(errorAction);
    AppendAssoc(BatchOpen, errorString, BatchMiddle + (methodsXml + BatchClose));
    AppendAssoc(BatchOpen + errorString, BatchMiddle, methodsXml + BatchClose);
    Success(BatchOpen + (errorString + (BatchMiddle + (methodsXml + BatchClose))))
  }

  /** GetBatch(methods): the envelope with OnError="Return". */
  function GetBatchDefault(methods: seq<Method>, iso: IsoFormatter, guids: GuidSource): (r: Result<string, Error>)
    ensures r.Failure? <==> AnyInvalid(methods)
    ensures r.Failure? ==> r.error == BatchDataMethod.InvalidCommand
    ensures r.Success? ==> BatchOpen + "Return" + BatchMiddle <= r.value
  {
    GetBatch(methods, Return, iso, guids)
  }

  // ---------------------------------------------------------------------
  // Reading a batch back
  // ---------------------------------------------------------------------

  /** The error action an OnError token names. */
  function ParseOnError(token: string): Option<OnErrorAction>
  {
    if token == "Return" then Some(Return)
    else if token == "Continue" then Some(Continue)
    else None
  }

  /** Reads consecutive method blocks from the front of `s` while a method opener follows. */
  function ReadMethods(s: string): (r: Option<(seq<MethodMeaning>, string)>)
    ensures r.Some? ==> |r.value.1| <= |s|
    decreases |s|
  {
    if BatchDataMethod.MethodOpen <= s then
      var first :- BatchDataMethod.ReadMethod(s);
      var more :- ReadMethods(first.1);
      Some(([first.0] + more.0, more.1))
    else
      Some(([], s))
  }

  /** Reads a whole batch: its error action and its method blocks, with nothing after the envelope. */
  function ReadBatch(s: string): Option<(OnErrorAction, seq<MethodMeaning>)>
  {
    var afterOpen :- Expect(s, BatchOpen);
    var token :- SplitAt(afterOpen, BatchMiddle);
    var errorAction :- ParseOnError(token.0);
    var methods :- ReadMethods(token.1);
    if methods.1 == BatchClose then Some((errorAction, methods.0)) else None
  }

  /** The action the envelope actually carries: undeclared values fall back to Return. */
  function Effective(errorAction: OnErrorAction): OnErrorAction
  {
    if errorAction == Continue then Continue else Return
  }

  /** What the method blocks of a batch are meant to say, in list order. */
  function Meanings(methods: seq<Method>, iso: IsoFormatter, guids: GuidSource): (r: seq<MethodMeaning>)
    ensures |r| == |methods|
    decreases |methods|
  {
    if methods == [] then []
    else
      var n := |methods| - 1;
      Meanings(methods[..n], iso, guids) + [BatchDataMethod.Meaning(methods[n], iso, guids(n))]
  }

  /** Every method block of the batch can be read back unambiguously. */
  predicate Readable(methods: seq<Method>, iso: IsoFormatter, guids: GuidSource)
  {
    forall i :: 0 <= i < |methods| ==> BatchDataMethod.Readable(methods[i], iso, guids(i))
  }

  /** The token round trip: the action written is the action read, after the fallback. */
  lemma ParseOnErrorString(errorAction: OnErrorAction)
    ensures ParseOnError(OnErrorString(errorAction)) == Some(Effective(errorAction))
  {
  }

  /** Reading one valid method block in front of more blocks. */
  lemma ReadMethodsStep(
    m: Method, iso: IsoFormatter, guid: string, rest: string, ms: seq<MethodMeaning>, tail: string)
    requires !m.command.Other?
    requires BatchDataMethod.Readable(m, iso, guid)
    requires ReadMethods(rest) == Some((ms, tail))
    ensures ReadMethods(BatchDataMethod.ToString(m, iso, guid).value + rest)
         == Some(([BatchDataMethod.Meaning(m, iso, guid)] + ms, tail))
  {
    BatchDataMethod.ReadMethodOfToString(m, iso, guid, rest);
  }

  lemma {:induction false} ReadMethodsOfMethodsXml(
    methods: seq<Method>, iso: IsoFormatter, guids: GuidSource,
    rest: string, ms: seq<MethodMeaning>, tail: string)
    requires !AnyInvalid(methods)
    requires Readable(methods, iso, guids)
    requires ReadMethods(rest) == Some((ms, tail))
    ensures MethodsXml(methods, iso, guids).Success?
    ensures ReadMethods(MethodsXml(methods, iso, guids).value + rest)
         == Some((Meanings(methods, iso, guids) + ms, tail))
    decreases |methods|
  {
    if methods == [] {
      assert MethodsXml(methods, iso, guids).value + rest == rest;
      assert Meanings(methods, iso, guids) + ms == ms;
    } else {
      var n := |methods| - 1;
      var init := methods[..n];
      var last := methods[n];
      var lastXml := BatchDataMethod.ToString(last, iso, guids(n)).value;
      var ms' := [BatchDataMethod.Meaning(last, iso, guids(n))] + ms;
      InvalidSnoc(methods);
      assert !last.command.Other?;
      ReadMethodsStep(last, iso, guids(n), rest, ms, tail);
      assert Readable(init, iso, guids);
      ReadMethodsOfMethodsXml(init, iso, guids, lastXml + rest, ms', tail);
      assert MethodsXml(methods, iso, guids).value == MethodsXml(init, iso, guids).value + lastXml;
      AppendAssoc(MethodsXml(init, iso, guids).value, lastXml, rest);
      AppendAssoc(Meanings(init, iso, guids), [BatchDataMethod.Meaning(last, iso, guids(n))], ms);
    }
  }

  /**
   * Round trip for the whole envelope: a batch of valid, readable methods
   * reads back as the effective error action and the methods' meanings in
   * list order, with nothing after the closing tag.
   */
  lemma ReadBatchOfGetBatch(methods: seq<Method>, errorAction: OnErrorAction, iso: IsoFormatter, guids: GuidSource)
    requires !AnyInvalid(methods)
    requires Readable(methods, iso, guids)
    ensures GetBatch(methods, errorAction, iso, guids).Success?
    ensures ReadBatch(GetBatch(methods, errorAction, iso, guids).value)
         == Some((Effective(errorAction), Meanings(methods, iso, guids)))
  {
    var token := OnErrorString(errorAction);
    ReadMethodsOfBody(methods, iso, guids);
    var body := MethodsXml(methods, iso, guids).value + BatchClose;
    assert GetBatch(methods, errorAction, iso, guids).value == BatchOpen + (token + (BatchMiddle + body));
    TokenHasNoQuote(errorAction);
    ParseOnErrorString(errorAction);
    ReadEnvelope(token, body, Effective(errorAction), Meanings(methods, iso, guids));
  }

  /** Reading an envelope whose token and body each read back. */
  lemma ReadEnvelope(token: string, body: string, errorAction: OnErrorAction, ms: seq<MethodMeaning>)
    requires '"' !in token
    requires ParseOnError(token) == Some(errorAction)
    requires ReadMethods(body) == Some((ms, BatchClose))
    ensures ReadBatch(BatchOpen + (token + (BatchMiddle + body))) == Some((errorAction, ms))
  {
    ExpectConcat(BatchOpen, token + (BatchMiddle + body));
    SplitAtFirstNested(token, BatchMiddle, body);
  }

  /** The body of the envelope reads back as the methods' meanings followed by the closing tag. */
  lemma ReadMethodsOfBody(methods: seq<Method>, iso: IsoFormatter, guids: GuidSource)
    requires !AnyInvalid(methods)
    requires Readable(methods, iso, guids)
    ensures MethodsXml(methods, iso, guids).Success?
    ensures ReadMethods(MethodsXml(methods, iso, guids).value + BatchClose)
         == Some((Meanings(methods, iso, guids), BatchClose))
  {
    BatchCloseIsNotMethod();
    assert ReadMethods(BatchClose) == Some(([], BatchClose));
    ReadMethodsOfMethodsXml(methods, iso, guids, BatchClose, [], BatchClose);
    assert Meanings(methods, iso, guids) + [] == Meanings(methods, iso, guids);
  }

  lemma BatchCloseIsNotMethod()
    ensures !(BatchDataMethod.MethodOpen <= BatchClose)
  {
    assert BatchClose[1] == '/';
    BatchDataMethod.ClosingTagIsNotMethod(BatchClose);
  }

  lemma TokenHasNoQuote(errorAction: OnErrorAction)
    ensures '"' !in OnErrorString(errorAction)
  {
  }

  /** An empty batch under the one-argument overload is the bare envelope with OnError="Return". */
  lemma EmptyBatchDefault(iso: IsoFormatter, guids: GuidSource)
    ensures GetBatchDefault([], iso, guids) == Success(BatchOpen + ("Return" + (BatchMiddle + BatchClose)))
  {
    assert MethodsXml([], iso, guids) == Success("");
    assert "" + BatchClose == BatchClose;
  }

  /**
   * When every method carries its own non-empty id, the id source plays no
   * part: rendering twice gives the same text.
   */
  lemma {:induction false} DeterministicWhenIdsSupplied(
    methods: seq<Method>, errorAction: OnErrorAction, iso: IsoFormatter, guids1: GuidSource, guids2: GuidSource)
    requires forall i :: 0 <= i < |methods| ==> methods[i].id.Some? && methods[i].id.value != []
    ensures GetBatch(methods, errorAction, iso, guids1) == GetBatch(methods, errorAction, iso, guids2)
  {
    MethodsXmlIgnoresGuids(methods, iso, guids1, guids2);
  }

  lemma {:induction false} MethodsXmlIgnoresGuids(
    methods: seq<Method>, iso: IsoFormatter, guids1: GuidSource, guids2: GuidSource)
    requires forall i :: 0 <= i < |methods| ==> methods[i].id.Some? && methods[i].id.value != []
    ensures MethodsXml(methods, iso, guids1) == MethodsXml(methods, iso, guids2)
    decreases |methods|
  {
    if methods != [] {
      var n := |methods| - 1;
      MethodsXmlIgnoresGuids(methods[..n], iso, guids1, guids2);
      BatchDataMethod.SuppliedIdIgnoresGenerator(methods[n], iso, guids1(n), guids2(n));
    }
  }
}
