/**
 * BatchDataColumn: one `<SetVar Name="urn:schemas-microsoft-com:office:office#…">`
 * field of a ProcessBatchData method, and a reader that takes such a field
 * apart again.
 */
module BatchDataColumn {
  import opened Wrappers
  import opened Text

  /** A System.DateTime; only the injected ISO-8601 formatter looks inside it. */
  datatype DateTime = DateTime(ticks: int)

  /**
   * SPUtility.CreateISO8601DateTimeFromSystemDateTime, supplied by the caller
   * because the model does not see SharePoint's implementation.
   */
  type IsoFormatter = DateTime -> string

  /**
   * The boxed `object` a column holds: null, a DateTime, or any other value,
   * represented by the text its own ToString() gives.
   */
  datatype Value = Null | Date(when: DateTime) | Scalar(text: string)

  datatype Column = Column(internalName: string, value: Value, isValueHtml: bool)

  // Long literals are written as short pieces: the verifier reasons about
  // a concatenation of short literals far more cheaply than about one long one.

  /** `<SetVar Name="urn:schemas-microsoft-com:office:office#`, the fixed part of every field. */
  const FieldOpen: string := "<SetVar " + "Name=\"urn:" + "schemas-" + "microsoft-" + "com:" + "office:" + "office#"
  const FieldMiddle: string := "\">"
  const FieldClose: string := "</SetVar>"
  const CDataOpen: string := "<![CDATA["
  const CDataClose: string := "]]>"

  /** `new BatchDataColumn(internalName, value)`: IsValueHtml keeps its default, false. */
  function FromNameAndValue(internalName: string, value: Value): Column
  {
    Column(internalName, value, false)
  }

  /** `new BatchDataColumn(internalName, value, isValueHtml)`. */
  function FromNameValueAndHtml(internalName: string, value: Value, isValueHtml: bool): Column
  {
    Column(internalName, value, isValueHtml)
  }

  /** What string.Format writes for a non-date argument: nothing for null. */
  function ObjectText(v: Value): string
    requires !v.Date?
  {
    match v
    case Null => ""
    case Scalar(t) => t
  }

  /** The text placed between the field's tags. */
  function RenderedValue(c: Column, iso: IsoFormatter): string
  {
    match c.value
    case Date(d) => iso(d)
    case _ => if c.isValueHtml then CDataOpen + ObjectText(c.value) + CDataClose else ObjectText(c.value)
  }

  /** BatchDataColumn.ToString(). */
  function ToString(c: Column, iso: IsoFormatter): (r: string)
    ensures FieldOpen + c.internalName + FieldMiddle <= r
    ensures |r| >= |FieldOpen| + |c.internalName| + |FieldMiddle| + |FieldClose|
    ensures r[|r| - |FieldClose|..] == FieldClose
  {
    FieldOpen + c.internalName + FieldMiddle + RenderedValue(c, iso) + FieldClose
  }

  // ---------------------------------------------------------------------
  // Reading a field back
  // ---------------------------------------------------------------------

  /** The content of a field as a reader sees it: CDATA-wrapped or plain text. */
  datatype Content = Plain(text: string) | CData(text: string)

  datatype Field = Field(name: string, content: Content)

  /**
   * Reads one field from the front of `s`, returning it with the unread
   * rest: the name runs up to the first `">`, the content is read by
   * ReadContent.
   */
  function ReadField(s: string): (r: Option<(Field, string)>)
    ensures r.Some? ==> |r.value.1| < |s|
  {
    var afterOpen :- Expect(s, FieldOpen);
    var nameAndBody :- SplitAt(afterOpen, FieldMiddle);
    var content :- ReadContent(nameAndBody.1);
    Some((Field(nameAndBody.0, content.0), content.1))
  }

  /**
   * Reads a field's content and its closing tag. A content starting with
   * the CDATA opener runs up to the first `]]>`; any other content runs up
   * to the first `</SetVar>`.
   */
  function ReadContent(body: string): (r: Option<(Content, string)>)
    ensures r.Some? ==> |r.value.1| < |body|
  {
    if CDataOpen <= body then
      var textAndRest :- SplitAt(body[|CDataOpen|..], CDataClose);
      var rest :- Expect(textAndRest.1, FieldClose);
      Some((CData(textAndRest.0), rest))
    else
      var textAndRest :- SplitAt(body, FieldClose);
      Some((Plain(textAndRest.0), textAndRest.1))
  }

  /**
   * The field a column stands for: a date as its ISO text whatever the HTML
   * flag says, an HTML-flagged value as CDATA, anything else as plain text.
   */
  function Meaning(c: Column, iso: IsoFormatter): Field
  {
    Field(c.internalName,
      match c.value
      case Date(d) => Plain(iso(d))
      case _ => if c.isValueHtml then CData(ObjectText(c.value)) else Plain(ObjectText(c.value)))
  }

  /**
   * The column can be read back unambiguously: its name has no double quote
   * and its content does not contain the delimiter that would end it early.
   */
  predicate Readable(c: Column, iso: IsoFormatter)
  {
    && '"' !in c.internalName
    && match c.value
       case Date(d) => '<' !in iso(d)
       case _ => if c.isValueHtml then ']' !in ObjectText(c.value) else '<' !in ObjectText(c.value)
  }

  /**
   * Round trip: reading a rendered field gives back the column's name and
   * its content, marked CDATA exactly when the HTML branch was taken, and
   * leaves whatever followed untouched.
   */
  lemma ReadFieldOfToString(c: Column, iso: IsoFormatter, rest: string)
    requires Readable(c, iso)
    ensures ReadField(ToString(c, iso) + rest) == Some((Meaning(c, iso), rest))
  {
    var name := c.internalName;
    var body := RenderedValue(c, iso) + FieldClose + rest;
    var s := ToString(c, iso) + rest;
    assert s == FieldOpen + (name + FieldMiddle + body);
    assert Expect(s, FieldOpen) == Some(name + FieldMiddle + body);
    SplitAtFirst(name, FieldMiddle, body);
    ReadContentOfRendered(c, iso, rest);
  }

  lemma ReadContentOfRendered(c: Column, iso: IsoFormatter, rest: string)
    requires Readable(c, iso)
    ensures ReadContent(RenderedValue(c, iso) + FieldClose + rest) == Some((Meaning(c, iso).content, rest))
  {
    var body := RenderedValue(c, iso) + FieldClose + rest;
    match c.value
    case Date(d) =>
      ReadPlainContent(iso(d), rest);
    case _ =>
      var t := ObjectText(c.value);
      if c.isValueHtml {
        assert body == CDataOpen + (t + CDataClose + (FieldClose + rest));
        assert body[|CDataOpen|..] == t + CDataClose + (FieldClose + rest);
        SplitAtFirst(t, CDataClose, FieldClose + rest);
      } else {
        ReadPlainContent(t, rest);
      }
  }

  lemma ReadPlainContent(t: string, rest: string)
    requires '<' !in t
    ensures ReadContent(t + FieldClose + rest) == Some((Plain(t), rest))
  {
    var body := t + FieldClose + rest;
    if t == [] {
      assert body[1] == '/';
    } else {
      assert body[0] == t[0];
    }
    assert !(CDataOpen <= body);
    SplitAtFirst(t, FieldClose, rest);
  }

  /** Text starting with a closing tag `</` never starts a field. */
  lemma ClosingTagIsNotField(s: string)
    requires |s| >= 2 && s[1] == '/'
    ensures !(FieldOpen <= s)
  {
  }

  /** A date is written by the ISO-8601 formatter whatever the HTML flag says. */
  lemma DateIgnoresHtmlFlag(name: string, d: DateTime, iso: IsoFormatter)
    ensures ToString(Column(name, Date(d), true), iso) == ToString(Column(name, Date(d), false), iso)
    ensures ToString(Column(name, Date(d), true), iso) == FieldOpen + name + FieldMiddle + iso(d) + FieldClose
  {
  }

  /**
   * A non-date value is wrapped in CDATA exactly once when flagged as HTML,
   * and inserted as its own text, unescaped, otherwise.
   */
  lemma NonDateRendering(name: string, v: Value, html: bool, iso: IsoFormatter)
    requires !v.Date?
    ensures html ==>
              ToString(Column(name, v, html), iso)
              == FieldOpen + name + FieldMiddle + CDataOpen + ObjectText(v) + CDataClose + FieldClose
    ensures !html ==> ToString(Column(name, v, html), iso) == FieldOpen + name + FieldMiddle + ObjectText(v) + FieldClose
  {
  }

  /** A null value still yields the field, with empty (or empty CDATA) content. */
  lemma NullStillEmitted(name: string, html: bool, iso: IsoFormatter)
    ensures ToString(Column(name, Null, html), iso)
         == FieldOpen + name + FieldMiddle + (if html then "<![CDATA[]]>" else "") + FieldClose
  {
  }

  /** The two-argument constructor never takes the CDATA branch. */
  lemma TwoArgumentConstructorIsNotHtml(name: string, v: Value, iso: IsoFormatter)
    ensures Meaning(FromNameAndValue(name, v), iso).content.Plain?
    ensures ToString(FromNameAndValue(name, v), iso)
         == FieldOpen + name + FieldMiddle + (if v.Date? then iso(v.when) else ObjectText(v)) + FieldClose
  {
  }

  /** The three-argument constructor keeps the flag: a non-date value reads back as CDATA exactly when it is set. */
  lemma ThreeArgumentConstructorKeepsFlag(name: string, v: Value, html: bool, iso: IsoFormatter)
    requires !v.Date?
    ensures Meaning(FromNameValueAndHtml(name, v, html), iso).content.CData? <==> html
    ensures Meaning(FromNameValueAndHtml(name, v, html), iso).content.text == ObjectText(v)
  {
  }
}
