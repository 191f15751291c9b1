/**
 * BatchDataMethod: one `<Method ID=…>` block of a ProcessBatchData batch,
 * and a reader that takes such a block apart again.
 */
module BatchDataMethod {
  import opened Wrappers
  import opened Text
  import opened Decimal
  import opened BatchDataCommandType
  import BatchDataColumn

  type Column = BatchDataColumn.Column
  type IsoFormatter = BatchDataColumn.IsoFormatter

  /** The exception GetCommandForMethod throws. */
  datatype Error = ArgumentException(message: string)

  const InvalidCommand: Error := ArgumentException("Invalid command!")

  /**
   * A BatchDataMethod. `id` is None when the Id property is null; `listId`
   * is the text Guid.ToString() gives for the ListId property.
   */
  datatype Method = Method(
    id: Option<string>,
    listId: string,
    command: CommandType,
    itemId: Int32,
    columnsData: seq<Column>)

  /** The text of Guid.Empty, the default value of ListId. */
  const EmptyGuidText: string := "00000000" + "-0000" + "-0000" + "-0000" + "-0000" + "00000000"

  // The pieces of methodFormat around its five placeholders.
  const MethodOpen: string := "<Method ID=\""
  const ListOpen: string := "\"><SetList>"
  const CommandOpen: string := "</SetList>" + "<SetVar " + "Name=\"Cmd\">"
  const ItemOpen: string := "</SetVar>" + "<SetVar " + "Name=\"ID\">"
  const ItemClose: string := "</SetVar>"
  const MethodClose: string := "</Method>"

  /** `new BatchDataMethod()`: an empty column list, every property at its default. */
  function New(): Method
  {
    Method(None, EmptyGuidText, Add, 0, [])
  }

  /** GetCommandForMethod: Add and Update save, Delete deletes, anything else throws. */
  function GetCommandForMethod(command: CommandType): (r: Result<string, Error>)
    ensures r == Success("Save") <==> command == Add || command == Update
    ensures r == Success("Delete") <==> command == Delete
    ensures r.Failure? <==> command.Other?
    ensures r.Failure? ==> r.error == InvalidCommand
  {
    match command
    case Add => Success("Save")
    case Update => Success("Save")
    case Delete => Success("Delete")
    case Other(_) => Failure(InvalidCommand)
  }

  /**
   * The method id actually written: the caller's when it is neither null
   * nor empty, otherwise the freshly generated one.
   */
  function ResolveId(id: Option<string>, newGuid: string): (r: string)
    ensures id.Some? && id.value != [] ==> r == id.value
    ensures id.None? || id.value == [] ==> r == newGuid
  {
    if id.None? || id.value == [] then newGuid else id.value
  }

  /** The content of the `ID` field: `New` for an insert, otherwise the item id in decimal. */
  function ItemField(command: CommandType, itemId: Int32): (r: string)
    ensures command == Add ==> r == "New"
    ensures command != Add ==> Parse(r) == Some(itemId as int)
    ensures command != Add ==> r == InvariantText(itemId)
  {
    if command == Add then "New"
    else
      ParseInvariantText(itemId);
      InvariantText(itemId)
  }

  /** The columns' fragments, appended one after another in list order. */
  function ColumnsXml(columns: seq<Column>, iso: IsoFormatter): string
  {
    ConcatMap(columns, c => BatchDataColumn.ToString(c, iso))
  }

  /**
   * GetMethodXml. `newGuid` is the text of the Guid that Guid.NewGuid() would
   * return, used only when no method id is given.
   */
  function GetMethodXml(
    methodId: Option<string>,
    listId: string,
    command: CommandType,
    itemId: Int32,
    columnValues: seq<Column>,
    iso: IsoFormatter,
    newGuid: string): (r: Result<string, Error>)
    ensures r.Failure? <==> command.Other?
    ensures r.Failure? ==> r.error == InvalidCommand
    ensures r.Success? ==> MethodOpen + ResolveId(methodId, newGuid) + ListOpen + listId + CommandOpen <= r.value
    ensures r.Success? ==> EndsWith(r.value, MethodClose)
  {
    var resolvedId := ResolveId(methodId, newGuid);
    var columns := ColumnsXml(columnValues, iso);
    var methodItemId := ItemField(command, itemId);
    var verb :- GetCommandForMethod(command);
    PrefixOfNested(MethodOpen, resolvedId, ListOpen, listId, CommandOpen,
      verb + (ItemOpen + (methodItemId + (ItemClose + (columns + MethodClose)))));
    SuffixOfNested(MethodOpen, resolvedId, ListOpen, listId, CommandOpen, verb, ItemOpen, methodItemId,
      ItemClose + columns, MethodClose);
    AppendAssoc(ItemClose, columns, MethodClose);
    // Nested to the right, the way a reader consumes it.
    Success(MethodOpen + (resolvedId + (ListOpen + (listId + (CommandOpen + (verb
      + (ItemOpen + (methodItemId + (ItemClose + (columns + MethodClose))))))))))
  }

  /** BatchDataMethod.ToString(). */
  function ToString(m: Method, iso: IsoFormatter, newGuid: string): (r: Result<string, Error>)
    ensures r.Failure? <==> m.command.Other?
  {
    GetMethodXml(m.id, m.listId, m.command, m.itemId, m.columnsData, iso, newGuid)
  }

  /** Appending columns appends their fragments: order kept, no separator. */
  lemma ColumnsXmlAppend(a: seq<Column>, b: seq<Column>, iso: IsoFormatter)
    ensures ColumnsXml(a + b, iso) == ColumnsXml(a, iso) + ColumnsXml(b, iso)
  {
    ConcatMapAppend(a, b, c => BatchDataColumn.ToString(c, iso));
  }

  // ---------------------------------------------------------------------
  // Reading a method back
  // ---------------------------------------------------------------------

  type Field = BatchDataColumn.Field

  /** Of the casts `(BatchDataCommandType)n`, exactly those outside 0..2 are rejected. */
  lemma GetCommandForCast(n: int)
    ensures GetCommandForMethod(FromValue(n)).Failure? <==> n < 0 || 2 < n
    ensures n == 0 || n == 1 ==> GetCommandForMethod(FromValue(n)) == Success("Save")
    ensures n == 2 ==> GetCommandForMethod(FromValue(n)) == Success("Delete")
  {
  }

  /**
   * What a reader learns from a method block: its id, list, command, the
   * item id (absent for an insert, whose ID field is `New`) and its fields.
   */
  datatype MethodMeaning = MethodMeaning(
    id: string,
    listId: string,
    command: CommandType,
    itemId: Option<int>,
    fields: seq<Field>)

  /**
   * Recovers the command from the `Cmd` verb and the `ID` field: `Save`
   * with `New` is an insert, `Save` with a number an update, `Delete` with
   * a number a delete.
   */
  function DecodeCommand(verb: string, item: string): Option<(CommandType, Option<int>)>
  {
    if verb == "Save" && item == "New" then Some((Add, None))
    else if verb == "Save" || verb == "Delete" then
      var n :- Parse(item);
      Some((if verb == "Save" then Update else Delete, Some(n)))
    else None
  }

  /** Reads consecutive fields from the front of `s` while a field opener follows. */
  function ReadFields(s: string): (r: Option<(seq<Field>, string)>)
    ensures r.Some? ==> |r.value.1| <= |s|
    decreases |s|
  {
    if BatchDataColumn.FieldOpen <= s then
      var first :- BatchDataColumn.ReadField(s);
      var more :- ReadFields(first.1);
      Some(([first.0] + more.0, more.1))
    else
      Some(([], s))
  }

  /** Reads one method block from the front of `s`, returning it with the unread rest. */
  function ReadMethod(s: string): (r: Option<(MethodMeaning, string)>)
    ensures r.Some? ==> |r.value.1| < |s|
  {
    var afterOpen :- Expect(s, MethodOpen);
    var id :- SplitAt(afterOpen, ListOpen);
    var list :- SplitAt(id.1, CommandOpen);
    var verb :- SplitAt(list.1, ItemOpen);
    var item :- SplitAt(verb.1, ItemClose);
    var command :- DecodeCommand(verb.0, item.0);
    var fields :- ReadFields(item.1);
    var rest :- Expect(fields.1, MethodClose);
    Some((MethodMeaning(id.0, list.0, command.0, command.1, fields.0), rest))
  }

  /** The fields the columns stand for, in list order. */
  function Meanings(columns: seq<Column>, iso: IsoFormatter): (r: seq<Field>)
    ensures |r| == |columns|
    decreases |columns|
  {
    if columns == [] then []
    else Meanings(columns[..|columns| - 1], iso) + [BatchDataColumn.Meaning(columns[|columns| - 1], iso)]
  }

  /** What a method block written for `m` is meant to say. */
  function Meaning(m: Method, iso: IsoFormatter, newGuid: string): MethodMeaning
  {
    MethodMeaning(
      ResolveId(m.id, newGuid),
      m.listId,
      m.command,
      if m.command == Add then None else Some(m.itemId as int),
      Meanings(m.columnsData, iso))
  }

  /**
   * The method block can be read back unambiguously: the written id has no
   * double quote, the list id no '<' (a Guid's text never has one) and every
   * column is readable.
   */
  predicate Readable(m: Method, iso: IsoFormatter, newGuid: string)
  {
    && '"' !in ResolveId(m.id, newGuid)
    && '<' !in m.listId
    && forall i :: 0 <= i < |m.columnsData| ==> BatchDataColumn.Readable(m.columnsData[i], iso)
  }

  /**
   * The verb and the ID field together determine the command, and for an
   * update or delete the item id; so Add and Update, which share `Save`,
   * stay distinguishable.
   */
  lemma DecodeCommandOfFields(command: CommandType, itemId: Int32)
    requires !command.Other?
    ensures DecodeCommand(GetCommandForMethod(command).value, ItemField(command, itemId))
         == Some((command, if command == Add then None else Some(itemId as int)))
  {
    if command != Add {
      var item := ItemField(command, itemId);
      assert item != "New" by {
        assert Parse("New") == None;
      }
    }
  }

  /** Reading a readable column's fragment in front of more fields. */
  lemma ReadFieldsStep(c: Column, iso: IsoFormatter, rest: string, fields: seq<Field>, tail: string)
    requires BatchDataColumn.Readable(c, iso)
    requires ReadFields(rest) == Some((fields, tail))
    ensures ReadFields(BatchDataColumn.ToString(c, iso) + rest)
         == Some(([BatchDataColumn.Meaning(c, iso)] + fields, tail))
  {
    var s := BatchDataColumn.ToString(c, iso) + rest;
    BatchDataColumn.ReadFieldOfToString(c, iso, rest);
    assert BatchDataColumn.FieldOpen <= s;
  }

  lemma {:induction false} ReadFieldsOfColumnsXml(
    columns: seq<Column>, iso: IsoFormatter, rest: string, fields: seq<Field>, tail: string)
    requires forall i :: 0 <= i < |columns| ==> BatchDataColumn.Readable(columns[i], iso)
    requires ReadFields(rest) == Some((fields, tail))
    ensures ReadFields(ColumnsXml(columns, iso) + rest) == Some((Meanings(columns, iso) + fields, tail))
    decreases |columns|
  {
    if columns == [] {
      assert ColumnsXml(columns, iso) == [];
      assert ColumnsXml(columns, iso) + rest == rest;
      assert Meanings(columns, iso) + fields == fields;
    } else {
      var init := columns[..|columns| - 1];
      var last := columns[|columns| - 1];
      var lastXml := BatchDataColumn.ToString(last, iso);
      var fields' := [BatchDataColumn.Meaning(last, iso)] + fields;
      ReadFieldsStep(last, iso, rest, fields, tail);
      ReadFieldsOfColumnsXml(init, iso, lastXml + rest, fields', tail);
      assert ColumnsXml(columns, iso) == ColumnsXml(init, iso) + lastXml;
      AppendAssoc(ColumnsXml(init, iso), lastXml, rest);
      AppendAssoc(Meanings(init, iso), [BatchDataColumn.Meaning(last, iso)], fields);
    }
  }

  /**
   * Round trip: a method block, read back, gives the resolved id, the list
   * id, the command, the item id (unless it is an insert) and the columns'
   * fields in list order, and leaves what follows untouched.
   */
  lemma ReadMethodOfToString(m: Method, iso: IsoFormatter, newGuid: string, rest: string)
    requires !m.command.Other?
    requires Readable(m, iso, newGuid)
    ensures ToString(m, iso, newGuid).Success?
    ensures ReadMethod(ToString(m, iso, newGuid).value + rest) == Some((Meaning(m, iso, newGuid), rest))
  {
    var id := ResolveId(m.id, newGuid);
    var verb := GetCommandForMethod(m.command).value;
    var item := ItemField(m.command, m.itemId);
    var columns := ColumnsXml(m.columnsData, iso);
    var x4 := columns + (MethodClose + rest);
    var x3 := item + (ItemClose + x4);
    var x2 := verb + (ItemOpen + x3);
    var x1 := m.listId + (CommandOpen + x2);
    var s := ToString(m, iso, newGuid).value + rest;
    AppendToNested(MethodOpen, id, ListOpen, m.listId, CommandOpen, verb, ItemOpen, item, ItemClose,
      columns + MethodClose, rest);
    AppendAssoc(columns, MethodClose, rest);
    assert s == MethodOpen + (id + (ListOpen + x1));
    VerbHasNoTag(m.command);
    ItemFieldHasNoTag(m.command, m.itemId);
    ReadMethodParts(id, m.listId, verb, item, columns + (MethodClose + rest));
    DecodeCommandOfFields(m.command, m.itemId);
    ReadFieldsThenClose(m.columnsData, iso, rest);
    ExpectConcat(MethodClose, rest);
  }

  lemma VerbHasNoTag(command: CommandType)
    requires !command.Other?
    ensures '<' !in GetCommandForMethod(command).value
  {
    var verb := GetCommandForMethod(command).value;
    assert verb == "Save" || verb == "Delete";
  }

  lemma ItemFieldHasNoTag(command: CommandType, itemId: Int32)
    ensures '<' !in ItemField(command, itemId)
  {
    var item := ItemField(command, itemId);
    if command == Add {
      assert item == "New";
    } else {
      assert item == InvariantText(itemId);
      assert forall i :: 0 <= i < |item| ==> item[i] == '-' || IsDigit(item[i]);
    }
  }

  /** Peeling the id, list id, verb and item id off a method block. */
  lemma ReadMethodParts(id: string, listId: string, verb: string, item: string, tail: string)
    requires '"' !in id && '<' !in listId && '<' !in verb && '<' !in item
    ensures Expect(MethodOpen + (id + (ListOpen + (listId + (CommandOpen + (verb + (ItemOpen + (item + (ItemClose + tail)))))))), MethodOpen)
         == Some(id + (ListOpen + (listId + (CommandOpen + (verb + (ItemOpen + (item + (ItemClose + tail))))))))
    ensures SplitAt(id + (ListOpen + (listId + (CommandOpen + (verb + (ItemOpen + (item + (ItemClose + tail))))))), ListOpen)
         == Some((id, listId + (CommandOpen + (verb + (ItemOpen + (item + (ItemClose + tail)))))))
    ensures SplitAt(listId + (CommandOpen + (verb + (ItemOpen + (item + (ItemClose + tail))))), CommandOpen)
         == Some((listId, verb + (ItemOpen + (item + (ItemClose + tail)))))
    ensures SplitAt(verb + (ItemOpen + (item + (ItemClose + tail))), ItemOpen)
         == Some((verb, item + (ItemClose + tail)))
    ensures SplitAt(item + (ItemClose + tail), ItemClose) == Some((item, tail))
  {
    SplitAtFirstNested(id, ListOpen, listId + (CommandOpen + (verb + (ItemOpen + (item + (ItemClose + tail))))));
    SplitAtFirstNested(listId, CommandOpen, verb + (ItemOpen + (item + (ItemClose + tail))));
    SplitAtFirstNested(verb, ItemOpen, item + (ItemClose + tail));
    SplitAtFirstNested(item, ItemClose, tail);
  }

  /** The fields of the columns, then the method's closing tag. */
  lemma ReadFieldsThenClose(columns: seq<Column>, iso: IsoFormatter, rest: string)
    requires forall i :: 0 <= i < |columns| ==> BatchDataColumn.Readable(columns[i], iso)
    ensures ReadFields(ColumnsXml(columns, iso) + (MethodClose + rest)) == Some((Meanings(columns, iso), MethodClose + rest))
  {
    var tail := MethodClose + rest;
    assert tail[1] == MethodClose[1] == '/';
    BatchDataColumn.ClosingTagIsNotField(tail);
    assert ReadFields(tail) == Some(([], tail));
    ReadFieldsOfColumnsXml(columns, iso, MethodClose + rest, [], MethodClose + rest);
    assert Meanings(columns, iso) + [] == Meanings(columns, iso);
  }

  /** Text starting with a closing tag `</` never starts a method block. */
  lemma ClosingTagIsNotMethod(s: string)
    requires |s| >= 2 && s[1] == '/'
    ensures !(MethodOpen <= s)
  {
  }

  /** A freshly constructed method writes an insert with no columns into the empty list id. */
  lemma NewMethodXml(iso: IsoFormatter, newGuid: string)
    ensures ToString(New(), iso, newGuid)
         == Success(MethodOpen + (newGuid + (ListOpen + (EmptyGuidText + (CommandOpen + ("Save"
              + (ItemOpen + ("New" + (ItemClose + MethodClose)))))))))
  {
    assert ColumnsXml([], iso) == [];
    assert ColumnsXml([], iso) + MethodClose == MethodClose;
  }

  /** A delete of row 42 with no columns: verb `Delete`, ID field `42`, empty columns part. */
  lemma DeleteRow42Xml(id: string, listId: string, iso: IsoFormatter, newGuid: string)
    requires id != []
    ensures ToString(Method(Some(id), listId, Delete, 42, []), iso, newGuid)
         == Success(MethodOpen + (id + (ListOpen + (listId + (CommandOpen + ("Delete"
              + (ItemOpen + ("42" + (ItemClose + MethodClose)))))))))
  {
    assert InvariantText(42) == "42" by {
      assert NatText(4) == ['4'];
      assert NatText(42) == NatText(4) + ['2'];
    }
    assert ItemField(Delete, 42) == "42";
    assert ColumnsXml([], iso) == "";
    assert "" + MethodClose == MethodClose;
  }

  /** A caller-supplied id is written verbatim, so the generator plays no part. */
  lemma SuppliedIdIgnoresGenerator(m: Method, iso: IsoFormatter, guid1: string, guid2: string)
    requires m.id.Some? && m.id.value != []
    ensures ToString(m, iso, guid1) == ToString(m, iso, guid2)
  {
  }
}
