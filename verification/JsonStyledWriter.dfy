/** The pretty printer: its scratch list of child texts is shared by every level of the recursion. */
module JsonStyledWriter {
  import opened JsonValue
  import opened JsonText
  import opened JsonWriter
  import opened JsonLayout
  import opened JsonIndent

  /** The text so far ends with a character that is not white space. */
  predicate Ends(t: string) {
    t != "" && !IsSpace(t[|t| - 1])
  }

  /** A value may be written here: at the very start, or after a blank. */
  predicate Ready(t: string, d: nat) {
    if t == "" then d == 0 else t[|t| - 1] == ' '
  }

  /** What follows a position that begins a new line or is ready for a value. */
  function Indented(t: string, indent: string): (r: string) {
    if t == "" then indent
    else if t[|t| - 1] == ' ' then t
    else if t[|t| - 1] == '\n' then t + indent
    else t + ("\n" + indent)
  }

  lemma IndentedEnds(t: string, d: nat)
    requires Ends(t)
    ensures Indented(t, Blanks(INDENT_SIZE * d)) == t + NewLine(d)
    ensures d > 0 ==> Ready(t + NewLine(d), d)
  {
  }

  lemma IndentedReady(t: string, d: nat)
    requires Ready(t, d)
    ensures Indented(t, Blanks(INDENT_SIZE * d)) == t
  {
  }

  lemma EmptyTexts(realText: real -> string)
    ensures Compact(Arr([]), realText) == "[]" && Compact(Obj([]), realText) == "{}"
  {
    CompactArray([], realText);
    CompactObject([], realText);
    assert "[" + "" + "]" == "[]" && "{" + "" + "}" == "{}";
  }

  class StyledWriter {
    const realText: real -> string
    var document: string
    var childValues: seq<string>
    var indentString: string
    var addChildValues: bool

    constructor (realText: real -> string)
      ensures this.realText == realText
    {
      this.realText := realText;
      document, childValues, indentString, addChildValues := "", [], "", false;
    }

    /** The indentation is that of depth d. */
    ghost predicate At(d: nat)
      reads this
    {
      PrintsWords(realText) && indentString == Blanks(INDENT_SIZE * d)
    }

    method WriteIndent()
      modifies this`document
      ensures document == Indented(old(document), indentString)
    {
      if document != "" {
        var last := document[|document| - 1];
        if last == ' ' {
          return;
        }
        if last != '\n' {
          TextRegroup(document, "\n", indentString);
          document := document + "\n";
        }
      }
      document := document + indentString;
    }

    method WriteWithIndent(value: string)
      modifies this`document
      ensures document == Indented(old(document), indentString) + value
    {
      WriteIndent();
      document := document + value;
    }

    method Indent(ghost d: nat)
      requires At(d)
      modifies this`indentString
      ensures At(d + 1)
    {
      indentString := indentString + seq(INDENT_SIZE, _ => ' ');
    }

    method Unindent(ghost d: nat)
      requires At(d + 1)
      modifies this`indentString
      ensures At(d)
    {
      indentString := indentString[..|indentString| - INDENT_SIZE];
    }

    method PushValue(value: string)
      modifies this`document, this`childValues
      ensures if addChildValues then document == old(document) && childValues == old(childValues) + [value]
              else document == old(document) + value && childValues == old(childValues)
    {
      if addChildValues {
        childValues := childValues + [value];
      } else {
        document := document + value;
      }
    }

    /** The scratch list holds the text of each element, and all are flat. */
    ghost predicate Collected(items: seq<Value>)
      reads this
    {
      AllFlat(items) && |childValues| == |items| &&
      forall i: nat :: i < |items| ==> childValues[i] == Compact(items[i], realText)
    }

    /** The text of v: handed to the list being collected, or written to the document. */
    ghost predicate Wrote(v: Value, d: nat, doc: string, children: seq<string>)
      reads this
    {
      if addChildValues then document == doc && childValues == children + [Compact(v, realText)]
      else document == doc + Styled(v, d, realText)
    }

    method WriteValue(v: Value, ghost d: nat)
      requires At(d) && WellFormed(v) && (if addChildValues then IsFlat(v) else Ready(document, d))
      modifies this
      ensures At(d) && addChildValues == old(addChildValues) && Wrote(v, d, old(document), old(childValues))
      decreases v, 0
    {
      match v
      case Arr(items) => WriteArrayValue(items, d);
      case Obj(ms) =>
        if ms == [] {
          EmptyTexts(realText);
          PushValue("{}");
        } else {
          WriteMembers(ms, d);
        }
      case _ =>
        var text := ScalarText(v, realText);
        PushValue(text);
    }

    /** Does the array need several lines? Along the way, collect the texts of its elements if all are flat. */
    method IsMultilineArray(items: seq<Value>, ghost d: nat) returns (multi: bool)
      requires At(d) && items != [] && AllWellFormed(items) && !addChildValues
      modifies this
      ensures At(d) && !addChildValues && document == old(document)
      ensures multi == !Fits(items, realText)
      ensures childValues == [] || Collected(items)
      ensures !multi ==> Collected(items)
      decreases items, 1
    {
      var size := |items|;
      multi := size * 3 >= RIGHT_MARGIN;
      childValues := [];
      var index := 0;
      while index < size && !multi
        invariant index <= size
        invariant !multi ==> size * 3 < RIGHT_MARGIN && forall i: nat :: i < index ==> IsFlat(items[i])
        invariant multi ==> !Fits(items, realText)
      {
        multi := !IsFlat(items[index]);
        index := index + 1;
      }
      if !multi {
        var lineLength := CollectTexts(items, d);
        multi := lineLength >= RIGHT_MARGIN;
      }
    }

    /** Collect the texts of the elements, and how long a line they would make. */
    method CollectTexts(items: seq<Value>, ghost d: nat) returns (lineLength: nat)
      requires At(d) && items != [] && AllWellFormed(items) && AllFlat(items) && !addChildValues && childValues == []
      modifies this
      ensures At(d) && !addChildValues && document == old(document) && Collected(items)
      ensures lineLength == |OneLine(items, realText)|
      decreases items, 0
    {
      addChildValues := true;
      lineLength := 4 + (|items| - 1) * 2;
      OneLineLength(items, realText);
      assert items[0..] == items;
      for i := 0 to |items|
        invariant At(d) && addChildValues && document == old(document) && |childValues| == i
        invariant forall k: nat :: k < i ==> childValues[k] == Compact(items[k], realText)
        invariant lineLength + Total(items[i..], realText) == |OneLine(items, realText)|
      {
        ItemsWellFormed(items, i);
        TotalStep(items, i, realText);
        WriteValue(items[i], d);
        lineLength := lineLength + |childValues[i]|;
      }
      addChildValues := false;
    }

    method WriteArrayValue(items: seq<Value>, ghost d: nat)
      requires At(d) && AllWellFormed(items) && (if addChildValues then items == [] else Ready(document, d))
      modifies this
      ensures At(d) && addChildValues == old(addChildValues)
      ensures Wrote(Arr(items), d, old(document), old(childValues))
      decreases items, 2
    {
      if items == [] {
        EmptyTexts(realText);
        PushValue("[]");
      } else {
        var multi := IsMultilineArray(items, d);
        if multi {
          WriteLines(items, d);
        } else {
          WriteLine(items);
        }
      }
    }

    /** The array on one line, from the collected texts. */
    method WriteLine(items: seq<Value>)
      requires items != [] && Collected(items)
      modifies this`document
      ensures document == old(document) + OneLine(items, realText)
    {
      ghost var before := document;
      document := document + "[ ";
      assert items[0..] == items && "" + Joined(items, realText) == Joined(items, realText);
      ghost var all := document + Joined(items, realText);
      for index := 0 to |items|
        invariant all == document + RestJoined(items, index, realText)
      {
        AppendCollected(items, index);
      }
      assert all + "" == all && document + "" == document;
      document := document + " ]";
      Closed(before, "[ ", Joined(items, realText), " ]", "");
      assert " ]" + "" == " ]" && document + "" == document;
    }

    /** One collected text, after its separator. */
    method AppendCollected(items: seq<Value>, index: nat)
      requires Collected(items) && index < |items|
      modifies this`document
      ensures document + RestJoined(items, index + 1, realText) == old(document) + RestJoined(items, index, realText)
    {
      RestJoinedStep(items, index, realText);
      Regroup(document, if index > 0 then ", " else "", Compact(items[index], realText),
              RestJoined(items, index + 1, realText));
      if index > 0 {
        document := document + ", ";
      } else {
        assert document + "" == document;
      }
      document := document + childValues[index];
    }

    /** One element on its line. */
    method WriteItem(items: seq<Value>, index: nat, hasChildValue: bool, ghost d: nat)
      requires At(d) && d > 0 && AllWellFormed(items) && index < |items| && !addChildValues && Ends(document)
      requires hasChildValue ==> Collected(items)
      modifies this
      ensures At(d) && !addChildValues && Ends(document) && (hasChildValue ==> childValues == old(childValues))
      ensures document == old(document) + (NewLine(d) + Styled(items[index], d, realText))
      decreases items, 0, 0
    {
      ItemsWellFormed(items, index);
      IndentedEnds(document, d);
      TextRegroup(document, NewLine(d), Styled(items[index], d, realText));
      StyledTight(items[index], d, realText);
      if hasChildValue {
        WriteWithIndent(childValues[index]);
      } else {
        WriteIndent();
        WriteValue(items[index], d);
      }
    }

    /** The array with one element a line: the collected texts if there are any, else by recursion. */
    method WriteLines(items: seq<Value>, ghost d: nat)
      requires At(d) && items != [] && AllWellFormed(items) && (childValues == [] || Collected(items))
      requires !addChildValues && Ready(document, d)
      modifies this
      ensures At(d) && !addChildValues
      ensures document == old(document) + ("[" + (Lines(items, d + 1, realText) + (NewLine(d) + "]")))
      decreases items, 1
    {
      ghost var before := document;
      IndentedReady(document, d);
      WriteWithIndent("[");
      Indent(d);
      WriteItems(items, d + 1);
      Unindent(d);
      IndentedEnds(document, d);
      WriteWithIndent("]");
      Closed(before, "[", Lines(items, d + 1, realText), NewLine(d), "]");
    }

    method WriteItems(items: seq<Value>, ghost d: nat)
      requires At(d) && d > 0 && items != [] && AllWellFormed(items) && (childValues == [] || Collected(items))
      requires !addChildValues && Ends(document)
      modifies this
      ensures At(d) && !addChildValues && Ends(document)
      ensures document == old(document) + Lines(items, d, realText)
      decreases items, 0, 1
    {
      var hasChildValue := childValues != [];
      ghost var all := document + Lines(items, d, realText);
      assert items[0..] == items;
      var index := 0;
      while true
        invariant At(d) && !addChildValues && index < |items| && Ends(document)
        invariant hasChildValue ==> Collected(items)
        invariant all == document + Lines(items[index..], d, realText)
        decreases |items| - index
      {
        LinesStep(items, index, d, realText, document);
        WriteItem(items, index, hasChildValue, d);
        index := index + 1;
        if index == |items| {
          break;
        }
        document := document + ",";
      }
    }

    /** One member on its line. */
    method WriteMember(m: Member, ghost d: nat)
      requires At(d) && d > 0 && WellFormed(m.value) && NUL !in m.name && !addChildValues && Ends(document)
      modifies this
      ensures At(d) && !addChildValues && Ends(document)
      ensures document == old(document) + (NewLine(d) + MemberLine(m, d, realText))
      decreases m, 1
    {
      var name := QuotedText(m.name);
      IndentedEnds(document, d);
      ghost var before := document;
      WriteWithIndent(name);
      document := document + " : ";
      WriteValue(m.value, d);
      StyledTight(m.value, d, realText);
      Closed(before, NewLine(d), name, " : ", Styled(m.value, d, realText));
    }

    method WriteMembers(ms: seq<Member>, ghost d: nat)
      requires At(d) && ms != [] && MembersWellFormed(ms) && !addChildValues && Ready(document, d)
      modifies this
      ensures At(d) && !addChildValues
      ensures document == old(document) + ("{" + (MemberLines(ms, d + 1, realText) + (NewLine(d) + "}")))
      decreases ms, 1
    {
      ghost var before := document;
      IndentedReady(document, d);
      WriteWithIndent("{");
      Indent(d);
      WriteMemberLines(ms, d + 1);
      Unindent(d);
      IndentedEnds(document, d);
      WriteWithIndent("}");
      Closed(before, "{", MemberLines(ms, d + 1, realText), NewLine(d), "}");
    }

    method WriteMemberLines(ms: seq<Member>, ghost d: nat)
      requires At(d) && d > 0 && ms != [] && MembersWellFormed(ms) && !addChildValues && Ends(document)
      modifies this
      ensures At(d) && !addChildValues && Ends(document)
      ensures document == old(document) + MemberLines(ms, d, realText)
      decreases ms, 0
    {
      ghost var all := document + MemberLines(ms, d, realText);
      assert ms[0..] == ms;
      var index := 0;
      while true
        invariant At(d) && !addChildValues && index < |ms| && Ends(document)
        invariant all == document + MemberLines(ms[index..], d, realText)
        decreases |ms| - index
      {
        MemberLinesStep(ms, index, d, realText, document);
        MemberWellFormed(ms, index);
        WriteMember(ms[index], d);
        index := index + 1;
        if index == |ms| {
          break;
        }
        document := document + ",";
      }
    }

    method Write(root: Value) returns (text: string)
      requires WellFormed(root) && PrintsWords(realText)
      modifies this
      ensures text == Styled(root, 0, realText) + "\n"
      ensures Lex(text) == Tokens(root, realText) && Complete(text)
      ensures forall i: nat {:trigger text[i]} :: i < |text| - 1 && text[i] == '\n' ==>
                var p := After(Outside(0), text[..i]); p.Outside? && Begins(p.open, text[i + 1..])
    {
      document, addChildValues, indentString := "", false, "";
      WriteValue(root, 0);
      document := document + "\n";
      text := document;
      assert "" + Styled(root, 0, realText) == Styled(root, 0, realText);
      StyledSpelt(root, 0, realText);
      AppendBlank(Styled(root, 0, realText), "\n");
      forall i: nat {:trigger text[i]} | i < |text| - 1 && text[i] == '\n'
        ensures var p := After(Outside(0), text[..i]); p.Outside? && Begins(p.open, text[i + 1..])
      {
        DocumentIndented(root, realText, text, i);
      }
    }
  }

  // ---------- What is still to be written ----------

  lemma Closed(before: string, a: string, b: string, c: string, d: string)
    ensures before + a + b + c + d == before + (a + (b + (c + d)))
  {
  }

  lemma LinesStep(items: seq<Value>, i: nat, d: nat, realText: real -> string, doc: string)
    requires i < |items|
    ensures doc + Lines(items[i..], d, realText)
         == doc + (NewLine(d) + Styled(items[i], d, realText)) +
            if i + 1 == |items| then "" else "," + Lines(items[i + 1..], d, realText)
    ensures i + 1 < |items| ==>
      doc + Lines(items[i..], d, realText)
        == doc + (NewLine(d) + Styled(items[i], d, realText)) + "," + Lines(items[i + 1..], d, realText)
  {
    var rest := items[i..];
    assert rest[0] == items[i] && rest[1..] == items[i + 1..];
    var more := if i + 1 == |items| then "" else "," + Lines(items[i + 1..], d, realText);
    TextRegroup(doc, NewLine(d) + Styled(items[i], d, realText), more);
    TextRegroup(NewLine(d), Styled(items[i], d, realText), more);
  }

  lemma MemberLinesStep(ms: seq<Member>, i: nat, d: nat, realText: real -> string, doc: string)
    requires i < |ms|
    ensures doc + MemberLines(ms[i..], d, realText)
         == doc + (NewLine(d) + MemberLine(ms[i], d, realText)) +
            if i + 1 == |ms| then "" else "," + MemberLines(ms[i + 1..], d, realText)
    ensures i + 1 < |ms| ==>
      doc + MemberLines(ms[i..], d, realText)
        == doc + (NewLine(d) + MemberLine(ms[i], d, realText)) + "," + MemberLines(ms[i + 1..], d, realText)
  {
    var rest := ms[i..];
    assert rest[0] == ms[i] && rest[1..] == ms[i + 1..];
    var more := if i + 1 == |ms| then "" else "," + MemberLines(ms[i + 1..], d, realText);
    TextRegroup(doc, NewLine(d) + MemberLine(ms[i], d, realText), more);
    TextRegroup(NewLine(d), MemberLine(ms[i], d, realText), more);
  }

  /** What is left of a line from element i on, starting with its separator. */
  function RestJoined(items: seq<Value>, i: nat, realText: real -> string): (r: string)
    requires i <= |items|
  {
    if i == |items| then "" else (if i > 0 then ", " else "") + Joined(items[i..], realText)
  }

  lemma RestJoinedStep(items: seq<Value>, i: nat, realText: real -> string)
    requires i < |items|
    ensures RestJoined(items, i, realText)
         == (if i > 0 then ", " else "") + Compact(items[i], realText) + RestJoined(items, i + 1, realText)
  {
    var rest := items[i..];
    assert rest[0] == items[i] && rest[1..] == items[i + 1..];
  }

  function Total(items: seq<Value>, realText: real -> string): (n: nat) {
    if items == [] then 0 else |Compact(items[0], realText)| + Total(items[1..], realText)
  }

  lemma TotalStep(items: seq<Value>, i: nat, realText: real -> string)
    requires i < |items|
    ensures Total(items[i..], realText) == |Compact(items[i], realText)| + Total(items[i + 1..], realText)
  {
    var rest := items[i..];
    assert rest[0] == items[i] && rest[1..] == items[i + 1..];
  }

  /** The length that the printer adds up is that of the line. */
  lemma {:induction false} JoinedLength(items: seq<Value>, realText: real -> string)
    requires items != []
    ensures |Joined(items, realText)| == (|items| - 1) * 2 + Total(items, realText)
  {
    if |items| > 1 {
      JoinedLength(items[1..], realText);
    }
  }

  lemma OneLineLength(items: seq<Value>, realText: real -> string)
    requires items != []
    ensures |OneLine(items, realText)| == 4 + (|items| - 1) * 2 + Total(items, realText)
  {
    JoinedLength(items, realText);
  }
}
