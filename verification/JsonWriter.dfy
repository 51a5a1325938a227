/** The two writers. Both lay out the tokens of the value, so the reader gets it back from either. */
module JsonWriter {
  import opened JsonText
  import opened JsonNumber
  import opened JsonValue
  import opened JsonGrammar
  import opened JsonComments
  import opened JsonLayout
  import opened JsonRoundTrip

  // ----- FastWriter

  /** How a `FastWriter` is set up; `printDouble` stands for the text of a real number. */
  datatype FastSettings = FastSettings(
    yamlCompatibilityEnabled: bool,
    dropNullPlaceholders: bool,
    omitEndingLineFeed: bool,
    printDouble: Double -> string)

  function Colon(w: FastSettings): string {
    if w.yamlCompatibilityEnabled then ": " else ":"
  }

  function FastText(w: FastSettings, v: Value): string
    decreases v
  {
    match v
    case Null => if w.dropNullPlaceholders then "" else "null"
    case Int(i) => IntText(i)
    case UInt(u) => IntText(u)
    case Real(d) => w.printDouble(d)
    case Str(s) => Quote(s)
    case Bool(b) => if b then "true" else "false"
    case Arr(items) => "[" + FastItems(w, items, 0) + "]"
    case Obj(members) => "{" + FastMembers(w, members, 0) + "}"
  }

  function FastItems(w: FastSettings, items: seq<Value>, k: nat): string
    requires k <= |items|
    decreases items, |items| - k
  {
    if k == |items| then "" else
    (if k > 0 then "," else "") + FastText(w, items[k]) + FastItems(w, items, k + 1)
  }

  function FastMembers(w: FastSettings, members: seq<Member>, k: nat): string
    requires k <= |members|
    decreases members, |members| - k
  {
    if k == |members| then "" else
    (if k > 0 then "," else "") + FastMember(w, members[k]) + FastMembers(w, members, k + 1)
  }

  function FastMember(w: FastSettings, m: Member): string
    decreases m
  {
    Quote(m.name) + Colon(w) + FastText(w, m.value)
  }

  function FastDocument(w: FastSettings, v: Value): string {
    FastText(w, v) + if w.omitEndingLineFeed then "" else "\n"
  }

  class FastWriter {
    const settings: FastSettings
    var document: string

    constructor (w: FastSettings)
      ensures settings == w
    {
      settings := w;
      document := "";
    }

    method Write(root: Value) returns (text: string)
      requires Representable(root)
      modifies this
      ensures text == document == FastDocument(settings, root)
    {
      document := "";
      WriteValue(root);
      if !settings.omitEndingLineFeed {
        document := document + "\n";
      }
      return document;
    }

    method WriteValue(value: Value)
      requires Representable(value)
      modifies this
      decreases value
      ensures document == old(document) + FastText(settings, value)
    {
      hide Digits, Quote;
      match value
      case Null =>
        if !settings.dropNullPlaceholders {
          document := document + "null";
        }
      case Int(i) =>
        var s := SignedToString(i);
        document := document + s;
      case UInt(u) =>
        var s := UnsignedToString(u);
        document := document + s;
      case Real(d) =>
        document := document + settings.printDouble(d);
      case Str(str) =>
        var s := ValueToQuotedStringN(str);
        document := document + s;
      case Bool(b) =>
        document := document + if b then "true" else "false";
      case Arr(items) => WriteArray(items);
      case Obj(members) => WriteObject(members);
    }

    method WriteArray(items: seq<Value>)
      requires forall k :: 0 <= k < |items| ==> Representable(items[k])
      modifies this
      decreases items
      ensures document == old(document) + FastText(settings, Arr(items))
    {
      hide Representable;
      ghost var before := document + "[";
      document := document + "[";
      for index := 0 to |items|
        invariant document + FastItems(settings, items, index) == before + FastItems(settings, items, 0)
      {
        ghost var here, rest := document, FastItems(settings, items, index + 1);
        ghost var comma := if index > 0 then "," else "";
        if index > 0 {
          document := document + ",";
        }
        assert document == here + comma;
        WriteValue(items[index]);
        Regroup(here, comma, FastText(settings, items[index]), rest);
      }
      assert document + "" == document;
      document := document + "]";
      assert document == old(document) + ("[" + FastItems(settings, items, 0) + "]");
    }

    method WriteObject(members: seq<Member>)
      requires forall k :: 0 <= k < |members| ==> IsBytes(members[k].name) && Representable(members[k].value)
      modifies this
      decreases members
      ensures document == old(document) + FastText(settings, Obj(members))
    {
      hide Representable, Quote;
      ghost var before := document + "{";
      document := document + "{";
      for index := 0 to |members|
        invariant document + FastMembers(settings, members, index) == before + FastMembers(settings, members, 0)
      {
        ghost var here, rest := document, FastMembers(settings, members, index + 1);
        ghost var comma := if index > 0 then "," else "";
        if index > 0 {
          document := document + ",";
        }
        assert document == here + comma;
        var name := ValueToQuotedStringN(members[index].name);
        document := document + name;
        document := document + if settings.yamlCompatibilityEnabled then ": " else ":";
        assert document == here + comma + name + Colon(settings);
        WriteValue(members[index].value);
        Regroup(here + comma, name, Colon(settings), FastText(settings, members[index].value));
        Regroup(here, comma, FastMember(settings, members[index]), rest);
      }
      assert document + "" == document;
      document := document + "}";
      assert document == old(document) + ("{" + FastMembers(settings, members, 0) + "}");
    }
  }

  lemma Regroup(a: string, b: string, c: string, d: string)
    ensures a + b + c + d == a + (b + c + d)
  {
  }

  // ----- What the fast text lays out

  lemma LaysNothing()
    ensures Lays("", [])
  {
  }

  lemma LaysSymbol(t: string)
    requires Separator(t)
    ensures Lays(t, [t]) && IsToken(t)
  {
    LaysToken(t);
  }

  lemma LaysColon(w: FastSettings)
    ensures Lays(Colon(w), [":"])
  {
    LaysSymbol(":");
    if w.yamlCompatibilityEnabled {
      LaysSpaces(" ");
      LaysConcat(":", [":"], " ", []);
      assert [":"] + [] == [":"];
    }
  }

  lemma QuoteIsToken(s: string)
    ensures IsToken(Quote(s))
  {
  }

  lemma {:induction false} FastTextLays(w: FastSettings, v: Value)
    requires RealFree(v) && !w.dropNullPlaceholders
    ensures Lays(FastText(w, v), Tokens(v))
    decreases v, 0
  {
    hide Run, Step, IntText, Quote;
    TokensAreTokens(v);
    match v
    case Arr(items) =>
      FastItemsLay(w, items, 0);
      LaysSymbol("[");
      LaysSymbol("]");
      ItemTokensAreTokens(items, 0);
      LaysConcat("[", ["["], FastItems(w, items, 0), TokensOfItems(items, 0));
      LaysConcat("[" + FastItems(w, items, 0), ["["] + TokensOfItems(items, 0), "]", ["]"]);
    case Obj(members) =>
      FastMembersLay(w, members, 0);
      LaysSymbol("{");
      LaysSymbol("}");
      MemberTokensAreTokens(members, 0);
      LaysConcat("{", ["{"], FastMembers(w, members, 0), TokensOfMembers(members, 0));
      LaysConcat("{" + FastMembers(w, members, 0), ["{"] + TokensOfMembers(members, 0), "}", ["}"]);
    case Real(_) =>
    case _ => ScalarLays(v);
  }

  lemma ScalarLays(v: Value)
    requires |Tokens(v)| == 1 && IsToken(Tokens(v)[0])
    ensures Lays(Tokens(v)[0], Tokens(v))
  {
    LaysToken(Tokens(v)[0]);
    assert [Tokens(v)[0]] == Tokens(v);
  }

  lemma {:induction false} FastItemsLay(w: FastSettings, items: seq<Value>, k: nat)
    requires k <= |items| && (forall i :: 0 <= i < |items| ==> RealFree(items[i])) && !w.dropNullPlaceholders
    ensures Lays(FastItems(w, items, k), TokensOfItems(items, k))
    decreases items, |items| - k
  {
    hide Lays, FastText, Tokens;
    if k == |items| {
      LaysNothing();
    } else {
      FastTextLays(w, items[k]);
      TokensAreTokens(items[k]);
      FastItemsLay(w, items, k + 1);
      LaysNothing();
      LaysSymbol(",");
      var comma, commas := if k > 0 then "," else "", if k > 0 then [","] else [];
      LaysConcat(comma, commas, FastText(w, items[k]), Tokens(items[k]));
      LaysConcat(comma + FastText(w, items[k]), commas + Tokens(items[k]), FastItems(w, items, k + 1),
                 TokensOfItems(items, k + 1));
    }
  }

  lemma {:induction false} FastMembersLay(w: FastSettings, members: seq<Member>, k: nat)
    requires k <= |members| && (forall i :: 0 <= i < |members| ==> RealFree(members[i].value))
             && !w.dropNullPlaceholders
    ensures Lays(FastMembers(w, members, k), TokensOfMembers(members, k))
    decreases members, |members| - k
  {
    hide Lays, FastText, Tokens, Quote;
    if k == |members| {
      LaysNothing();
    } else {
      var m := members[k];
      FastTextLays(w, m.value);
      TokensAreTokens(m.value);
      QuoteIsToken(m.name);
      LaysToken(Quote(m.name));
      LaysColon(w);
      LaysConcat(Quote(m.name), [Quote(m.name)], Colon(w), [":"]);
      LaysConcat(Quote(m.name) + Colon(w), [Quote(m.name)] + [":"], FastText(w, m.value), Tokens(m.value));
      assert [Quote(m.name)] + [":"] + Tokens(m.value) == TokensOfMember(m);
      FastMembersLay(w, members, k + 1);
      LaysNothing();
      LaysSymbol(",");
      var comma, commas := if k > 0 then "," else "", if k > 0 then [","] else [];
      LaysConcat(comma, commas, FastMember(w, m), TokensOfMember(m));
      LaysConcat(comma + FastMember(w, m), commas + TokensOfMember(m), FastMembers(w, members, k + 1),
                 TokensOfMembers(members, k + 1));
    }
  }

  lemma FastDocumentLays(w: FastSettings, v: Value)
    requires RealFree(v) && !w.dropNullPlaceholders
    ensures Lays(FastDocument(w, v), Tokens(v))
  {
    hide Lays, FastText, Tokens;
    FastTextLays(w, v);
    TokensAreTokens(v);
    if !w.omitEndingLineFeed {
      LaysSpaces("\n");
      LaysConcat(FastText(w, v), Tokens(v), "\n", []);
      assert Tokens(v) + [] == Tokens(v);
    } else {
      assert FastText(w, v) + "" == FastText(w, v);
    }
  }

  /** Reading what the fast writer wrote gives the value back. */
  lemma FastRoundTrip(f: Features, w: FastSettings, v: Value, root: Value)
    requires Readable(v) && !w.dropNullPlaceholders
    requires f.strictRoot ==> v.Arr? || v.Obj?
    ensures Parse(f, FastDocument(w, v), root)
         == if Depth(v) > f.stackLimit then Thrown else Done(true, Norm(v), |FastDocument(w, v)|, 0)
    ensures SameValue(v, Norm(v))
  {
    FastDocumentLays(w, v);
    ParseLaidOut(f, FastDocument(w, v), v, root);
    NormIsSame(v);
  }

  // ----- BuiltStyledStreamWriter

  datatype CommentStyle = NoComments | AllComments

  class BuiltStyledStreamWriter {
    const indentation: string
    const cs: CommentStyle
    const colonSymbol: string
    const nullSymbol: string
    const endingLineFeedSymbol: string
    const rightMargin: nat := 74

    var sout: string
    var childValues: seq<string>
    var indentString: string
    var addChildValues: bool
    var indented: bool

    /** The tokens written so far. */
    ghost var toks: seq<string>

    /** What the writer's factory sets up: symbols made of the right token, and spaces. */
    ghost predicate WellConfigured() {
      && AllSpaces(indentation) && AllSpaces(endingLineFeedSymbol)
      && Lays(colonSymbol, [":"]) && nullSymbol == "null"
    }

    ghost predicate Valid()
      reads this
    {
      && WellConfigured() && AllSpaces(indentString)
      && Lays(sout, toks) && AllTokens(toks)
      && (cs == AllComments ==> childValues == [] && !addChildValues)
    }

    constructor (indentation: string, cs: CommentStyle, colonSymbol: string, nullSymbol: string,
                 endingLineFeedSymbol: string)
      requires AllSpaces(indentation) && AllSpaces(endingLineFeedSymbol)
      requires Lays(colonSymbol, [":"]) && nullSymbol == "null"
      ensures Valid() && sout == "" && toks == []
    {
      this.indentation := indentation;
      this.cs := cs;
      this.colonSymbol := colonSymbol;
      this.nullSymbol := nullSymbol;
      this.endingLineFeedSymbol := endingLineFeedSymbol;
      sout, childValues, indentString, toks := "", [], "", [];
      addChildValues, indented := false, false;
    }

    // The writer's output statement, for a token, for space and for a text with several tokens.

    method Emit(text: string, ghost more: seq<string>)
      requires Valid() && Lays(text, more) && AllTokens(more)
      modifies this`sout, this`toks
      ensures Valid() && sout == old(sout) + text && toks == old(toks) + more
    {
      LaysConcat(sout, toks, text, more);
      sout := sout + text;
      toks := toks + more;
    }

    method EmitSpace(ws: string)
      requires Valid() && AllSpaces(ws)
      modifies this`sout, this`toks
      ensures Valid() && sout == old(sout) + ws && toks == old(toks)
    {
      LaysSpaces(ws);
      Emit(ws, []);
      assert old(toks) + [] == old(toks);
    }

    method WriteIndent()
      requires Valid()
      modifies this`sout, this`toks
      ensures Valid() && toks == old(toks)
    {
      if indentation != "" {
        EmitSpace("\n");
        EmitSpace(indentString);
      }
    }

    method WriteWithIndent(value: string, ghost more: seq<string>)
      requires Valid() && Lays(value, more) && AllTokens(more)
      modifies this`sout, this`toks, this`indented
      ensures Valid() && toks == old(toks) + more
    {
      if !indented {
        WriteIndent();
      }
      Emit(value, more);
      indented := false;
    }

    method Indent()
      requires Valid()
      modifies this`indentString
      ensures Valid() && indentString == old(indentString) + indentation
    {
      indentString := indentString + indentation;
    }

    method Unindent()
      requires Valid() && |indentString| >= |indentation|
      modifies this`indentString
      ensures Valid() && indentString == old(indentString)[..|old(indentString)| - |indentation|]
    {
      indentString := indentString[..|indentString| - |indentation|];
    }

    /** Either the text goes out, or it becomes the next entry of the side buffer. */
    method PushValue(value: string, ghost more: seq<string>)
      requires Valid() && Lays(value, more) && AllTokens(more)
      modifies this`sout, this`toks, this`childValues
      ensures Valid()
      ensures if addChildValues then sout == old(sout) && toks == old(toks) && childValues == old(childValues) + [value]
              else toks == old(toks) + more && childValues == old(childValues)
    {
      if addChildValues {
        childValues := childValues + [value];
      } else {
        Emit(value, more);
      }
    }

    /** Values whose text is pushed in one piece. */
    static predicate Atomic(v: Value) {
      match v
      case Arr(items) => items == []
      case Obj(members) => members == []
      case _ => true
    }

    method WriteValue(value: Value)
      requires Valid() && Representable(value) && RealFree(value)
      requires addChildValues ==> Atomic(value)
      modifies this
      decreases value, 1
      ensures Valid() && addChildValues == old(addChildValues) && indentString == old(indentString)
      ensures if addChildValues
              then && sout == old(sout) && toks == old(toks) && |childValues| == |old(childValues)| + 1
                   && childValues[..|old(childValues)|] == old(childValues)
                   && Lays(childValues[|old(childValues)|], Tokens(value))
              else toks == old(toks) + Tokens(value)
    {
      hide Lays, Digits, Quote;
      TokensAreTokens(value);
      if value.Arr? {
        WriteArrayValue(value.items);
      } else if value.Obj? {
        if value.members == [] {
          LaysEmptyObject();
          PushValue("{}", ["{", "}"]);
        } else {
          WriteObjectValue(value.members);
        }
      } else {
        var text := ScalarText(value);
        assert text == Tokens(value)[0];
        LaysToken(text);
        PushValue(text, [text]);
      }
    }

    method ScalarText(value: Value) returns (text: string)
      requires nullSymbol == "null" && Representable(value) && RealFree(value) && !value.Arr? && !value.Obj?
      ensures [text] == Tokens(value)
    {
      hide Digits, Quote;
      match value
      case Null => text := nullSymbol;
      case Int(i) => text := SignedToString(i);
      case UInt(u) => text := UnsignedToString(u);
      case Str(s) => text := ValueToQuotedStringN(s);
      case Bool(b) => text := if b then "true" else "false";
    }

    method WriteObjectValue(members: seq<Member>)
      requires Valid() && !addChildValues && members != []
      requires forall k :: 0 <= k < |members| ==>
                             IsBytes(members[k].name) && Representable(members[k].value) && RealFree(members[k].value)
      modifies this
      decreases members, 0
      ensures Valid() && !addChildValues && indentString == old(indentString)
      ensures toks == old(toks) + Tokens(Obj(members))
    {
      hide Lays, Representable, RealFree, Quote;
      ghost var toks0 := toks;
      LaysSymbol("{");
      LaysSymbol("}");
      LaysSymbol(",");
      WriteWithIndent("{", ["{"]);
      Indent();
      var it := 0;
      assert TokensOfMembers(members, 0) == TokensOfMember(members[0]) + TokensOfMembers(members, 1);
      while true
        invariant Valid() && !addChildValues && 0 <= it < |members|
        invariant indentString == old(indentString) + indentation
        invariant toks + TokensOfMember(members[it]) + TokensOfMembers(members, it + 1)
               == toks0 + ["{"] + TokensOfMembers(members, 0)
        decreases |members| - it
      {
        ghost var before := toks;
        WriteMember(members[it]);
        it := it + 1;
        if it == |members| {
          break;
        }
        Emit(",", [","]);
        SplitTokens(toks, TokensOfMember(members[it]), TokensOfMembers(members, it + 1),
                    before + TokensOfMember(members[it - 1]));
      }
      assert toks + [] == toks;
      Unindent();
      WriteWithIndent("}", ["}"]);
      assert toks == toks0 + (["{"] + TokensOfMembers(members, 0) + ["}"]);
    }

    method WriteMember(m: Member)
      requires Valid() && !addChildValues && IsBytes(m.name) && Representable(m.value) && RealFree(m.value)
      modifies this
      decreases m, 0
      ensures Valid() && !addChildValues && indentString == old(indentString)
      ensures toks == old(toks) + TokensOfMember(m)
    {
      hide Lays, Quote;
      var name := ValueToQuotedStringN(m.name);
      QuoteIsToken(m.name);
      LaysToken(name);
      WriteWithIndent(name, [name]);
      Emit(colonSymbol, [":"]);
      WriteValue(m.value);
      assert old(toks) + [name] + [":"] + Tokens(m.value) == old(toks) + ([name, ":"] + Tokens(m.value));
    }

    method WriteArrayValue(items: seq<Value>)
      requires Valid() && (addChildValues ==> items == [])
      requires forall k :: 0 <= k < |items| ==> Representable(items[k]) && RealFree(items[k])
      modifies this
      decreases items, 2
      ensures Valid() && addChildValues == old(addChildValues) && indentString == old(indentString)
      ensures if addChildValues
              then && sout == old(sout) && toks == old(toks) && |childValues| == |old(childValues)| + 1
                   && childValues[..|old(childValues)|] == old(childValues)
                   && Lays(childValues[|old(childValues)|], Tokens(Arr(items)))
              else toks == old(toks) + Tokens(Arr(items))
    {
      hide Lays, Representable, RealFree;
      var size := |items|;
      if size == 0 {
        LaysEmptyArray();
        PushValue("[]", ["[", "]"]);
      } else {
        var isMultiLine := cs == AllComments;
        if !isMultiLine {
          isMultiLine := IsMultilineArray(items);
        }
        if isMultiLine {
          WriteLines(items);
        } else {
          WriteOneLine(items);
        }
      }
    }

    /** One element per line; the side buffer, if it was filled, has the text of each. */
    method WriteLines(items: seq<Value>)
      requires Valid() && !addChildValues && items != []
      requires forall k :: 0 <= k < |items| ==> Representable(items[k]) && RealFree(items[k])
      requires childValues == [] || Buffered(items)
      modifies this
      decreases items, 1
      ensures Valid() && !addChildValues && indentString == old(indentString)
      ensures toks == old(toks) + Tokens(Arr(items))
    {
      hide Lays, Representable, RealFree, IsSpace, Tokens;
      ArrayParts(items);
      ghost var toks0 := toks;
      LaysSymbol("[");
      LaysSymbol("]");
      LaysSymbol(",");
      WriteWithIndent("[", ["["]);
      Indent();
      var hasChildValue := childValues != [];
      var index := 0;
      assert TokensOfItems(items, 0) == Tokens(items[0]) + TokensOfItems(items, 1);
      while true
        invariant Valid() && !addChildValues && 0 <= index < |items|
        invariant hasChildValue ==> Buffered(items)
        invariant indentString == old(indentString) + indentation
        invariant toks + Tokens(items[index]) + TokensOfItems(items, index + 1)
                  == toks0 + ["["] + TokensOfItems(items, 0)
        decreases |items| - index
      {
        ghost var before := toks;
        TokensAreTokens(items[index]);
        if hasChildValue {
          WriteWithIndent(childValues[index], Tokens(items[index]));
        } else {
          WriteLine(items[index]);
        }
        index := index + 1;
        if index == |items| {
          break;
        }
        Emit(",", [","]);
        SplitTokens(toks, Tokens(items[index]), TokensOfItems(items, index + 1), before + Tokens(items[index - 1]));
      }
      assert toks + [] == toks;
      Unindent();
      WriteWithIndent("]", ["]"]);
      assert toks == toks0 + (["["] + TokensOfItems(items, 0) + ["]"]);
    }

    method WriteLine(value: Value)
      requires Valid() && !addChildValues && Representable(value) && RealFree(value)
      modifies this
      decreases value, 2
      ensures Valid() && !addChildValues && indentString == old(indentString)
      ensures toks == old(toks) + Tokens(value)
    {
      hide Lays, Representable, RealFree, Tokens;
      if !indented {
        WriteIndent();
      }
      indented := true;
      WriteValue(value);
      indented := false;
    }

    /** The whole array on one line, from the side buffer. */
    method WriteOneLine(items: seq<Value>)
      requires Valid() && !addChildValues && items != [] && Buffered(items)
      modifies this`sout, this`toks
      ensures Valid() && toks == old(toks) + Tokens(Arr(items))
    {
      hide Lays;
      ghost var toks0 := toks;
      LaysSymbol("[");
      LaysSymbol("]");
      LaysSymbol(",");
      assert |childValues| == |items|;
      Emit("[", ["["]);
      if indentation != "" {
        EmitSpace(" ");
      }
      for index := 0 to |items|
        invariant Valid() && childValues == old(childValues)
        invariant toks + TokensOfItems(items, index) == toks0 + ["["] + TokensOfItems(items, 0)
      {
        ghost var before := toks;
        ghost var commas := if index > 0 then [","] else [];
        TokensAreTokens(items[index]);
        if index > 0 {
          Emit(",", [","]);
          if indentation != "" {
            EmitSpace(" ");
          }
        }
        assert toks == before + commas;
        Emit(childValues[index], Tokens(items[index]));
        RegroupTokens(before, commas, Tokens(items[index]), TokensOfItems(items, index + 1));
      }
      assert toks + [] == toks;
      if indentation != "" {
        EmitSpace(" ");
      }
      Emit("]", ["]"]);
      assert toks == toks0 + (["["] + TokensOfItems(items, 0) + ["]"]);
    }

    /** The side buffer has exactly one entry for each element, and it lays out that element. */
    ghost predicate Buffered(items: seq<Value>)
      reads this`childValues
    {
      |childValues| == |items| && forall k :: 0 <= k < |items| ==> Lays(childValues[k], Tokens(items[k]))
    }

    method IsMultilineArray(items: seq<Value>) returns (isMultiLine: bool)
      requires Valid() && !addChildValues && items != [] && cs == NoComments
      requires forall k :: 0 <= k < |items| ==> Representable(items[k]) && RealFree(items[k])
      modifies this
      decreases items, 1
      ensures Valid() && !addChildValues && indentString == old(indentString)
      ensures sout == old(sout) && toks == old(toks)
      ensures Buffered(items) || (isMultiLine && childValues == [])
    {
      hide Lays, Representable, RealFree, Tokens;
      var size := |items|;
      isMultiLine := size * 3 % 0x1_0000_0000 >= rightMargin;
      childValues := [];
      var index := 0;
      while index < size && !isMultiLine
        invariant 0 <= index <= size
        invariant Valid() && !addChildValues && childValues == [] && indentString == old(indentString)
        invariant sout == old(sout) && toks == old(toks)
        invariant !isMultiLine ==> forall k :: 0 <= k < index ==> Atomic(items[k])
      {
        isMultiLine := (items[index].Arr? || items[index].Obj?) && !Atomic(items[index]);
        index := index + 1;
      }
      if !isMultiLine {
        addChildValues := true;
        var lineLength := (4 + (size - 1) * 2) % 0x1_0000_0000;
        for i := 0 to size
          invariant Valid() && addChildValues && |childValues| == i && indentString == old(indentString)
          invariant sout == old(sout) && toks == old(toks)
          invariant forall k :: 0 <= k < i ==> Lays(childValues[k], Tokens(items[k]))
        {
          ghost var before := childValues;
          WriteValue(items[i]);
          assert forall k :: 0 <= k < i ==> childValues[k] == childValues[..i][k] == before[k];
          lineLength := (lineLength + |childValues[i]|) % 0x1_0000_0000;
        }
        addChildValues := false;
        isMultiLine := isMultiLine || lineLength >= rightMargin;
      }
    }

    /** Writes a comment-free value to a new stream. */
    method Write(root: Value) returns (text: string)
      requires Valid() && sout == "" && toks == []
      requires Representable(root) && RealFree(root)
      modifies this
      ensures text == sout && Lays(text, Tokens(root))
    {
      hide Lays;
      addChildValues := false;
      indented := true;
      indentString := "";
      indented := true;
      WriteValue(root);
      EmitSpace(endingLineFeedSymbol);
      assert [] + Tokens(root) == Tokens(root);
      return sout;
    }
  }

  lemma LaysEmptyArray()
    ensures Lays("[]", ["[", "]"]) && AllTokens(["[", "]"])
    ensures Tokens(Arr([])) == ["[", "]"]
  {
    LaysSymbol("[");
    LaysSymbol("]");
    LaysConcat("[", ["["], "]", ["]"]);
    assert "[" + "]" == "[]" && ["["] + ["]"] == ["[", "]"];
  }

  lemma LaysEmptyObject()
    ensures Lays("{}", ["{", "}"]) && AllTokens(["{", "}"])
    ensures Tokens(Obj([])) == ["{", "}"]
  {
    LaysSymbol("{");
    LaysSymbol("}");
    LaysConcat("{", ["{"], "}", ["}"]);
    assert "{" + "}" == "{}" && ["{"] + ["}"] == ["{", "}"];
  }

  lemma RegroupTokens(a: seq<string>, b: seq<string>, c: seq<string>, d: seq<string>)
    ensures a + b + c + d == a + (b + c + d)
  {
  }

  lemma SplitTokens(toks: seq<string>, item: seq<string>, rest: seq<string>, before: seq<string>)
    requires toks == before + [","]
    ensures toks + item + rest == before + ([","] + item + rest)
  {
  }

  /** Layout never changes meaning: both writers' texts are read as the same value, or both are too deep. */
  lemma LayoutNeverMatters(f: Features, w: FastSettings, v: Value, styled: string, root: Value)
    requires Readable(v) && !w.dropNullPlaceholders && Lays(styled, Tokens(v))
    requires f.strictRoot ==> v.Arr? || v.Obj?
    ensures Parse(f, styled, root)
         == if Depth(v) > f.stackLimit then Thrown else Done(true, Norm(v), |styled|, 0)
    ensures Parse(f, FastDocument(w, v), root)
         == if Depth(v) > f.stackLimit then Thrown else Done(true, Norm(v), |FastDocument(w, v)|, 0)
  {
    ParseLaidOut(f, styled, v, root);
    FastRoundTrip(f, w, v, root);
  }
}
