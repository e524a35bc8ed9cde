/** CodeDomPrinter: the canonical text the tests compare generated
    declarations against. Type references and expressions are rendered by
    functions; attribute lists, attributes, methods and fields are built by
    methods that append to a string builder, each proved to build the text its
    specification function describes. */
module CodeDomPrinter {
  import opened Text
  import opened CodeDom

  // ---------------------------------------------------------------------------
  // Type references

  /** The "(rank)" written after an array type; nothing for rank 0 or less. */
  function RankSuffix(rank: int): (r: string)
    ensures rank > 0 ==> Balanced(r) && '.' !in r && ' ' !in r
  {
    if rank > 0 then
      var d := DecimalString(rank);
      assert '.' !in d && ' ' !in d && ParenFree(d) by {
        forall i | 0 <= i < |d| ensures IsDigit(d[i]) { }
      }
      ParenFreeBalanced(d);
      BalancedWrap(d);
      "(" + d + ")"
    else ""
  }

  /** CodeDomPrinter.ConvertNoNamespace: the name after the last '.', with the
      rank suffix; a name without '.' comes back unchanged and without a rank
      suffix, whatever the rank. */
  function ConvertNoNamespace(t: TypeRef): (r: string)
    ensures '.' !in t.baseType ==> r == t.baseType
    ensures '.' in t.baseType ==> '.' !in r
  {
    var index := LastIndexOf(t.baseType, '.');
    if index < 0 then t.baseType
    else
      var local := t.baseType[index + 1..];
      assert '.' !in local + RankSuffix(t.arrayRank);
      local + RankSuffix(t.arrayRank)
  }

  /** A qualified name `q.local` is printed as its local part and the rank suffix. */
  lemma NoNamespaceQualified(q: string, local: string, rank: int)
    requires '.' !in local
    ensures ConvertNoNamespace(TypeRef(q + "." + local, rank)) ==
      local + (if rank > 0 then "(" + DecimalString(rank) + ")" else "")
  {
    LastIndexOfSplit(q, '.', local);
    assert (q + "." + local)[|q| + 1..] == local;
  }

  /** CodeDomPrinter.Convert(CodeTypeReference): the base type, then "(rank)"
      for an array type. */
  function ConvertTypeRef(t: TypeRef): (r: string)
    ensures |t.baseType| <= |r| && r[..|t.baseType|] == t.baseType
    ensures t.arrayRank <= 0 ==> r == t.baseType
  {
    t.baseType + RankSuffix(t.arrayRank)
  }

  /** The text ends in "(digits)" after its last '(', as the text of an
      array type does. */
  predicate EndsWithRankSuffix(s: string)
  {
    |s| > 0 && s[|s| - 1] == ')' &&
    var k := LastIndexOf(s, '(');
    0 <= k && k + 1 < |s| - 1 && AllDigits(s[k + 1..|s| - 1])
  }

  /** Reads a type reference back from its printed text: a trailing
      "(digits)" is the rank, everything before it the base type. */
  function ParseTypeText(s: string): TypeRef
  {
    if EndsWithRankSuffix(s) then
      var k := LastIndexOf(s, '(');
      TypeRef(s[..k], DecimalValue(s[k + 1..|s| - 1]))
    else TypeRef(s, 0)
  }

  /** The printed text of a type reference determines it, except when the rank
      prints nothing (rank 0) and the base name itself ends in "(digits)". */
  lemma TypeRefRoundTrip(t: TypeRef)
    requires t.arrayRank >= 0
    requires t.arrayRank == 0 ==> !EndsWithRankSuffix(t.baseType)
    ensures ParseTypeText(ConvertTypeRef(t)) == t
  {
    var b := t.baseType;
    if t.arrayRank > 0 {
      var d := DecimalString(t.arrayRank);
      AppendAssoc(b + "(", d, ")");
      AppendAssoc(b, "(", d + ")");
      assert ConvertTypeRef(t) == b + "(" + d + ")";
      ArrayTypeText(b, t.arrayRank);
    } else {
      assert ConvertTypeRef(t) == b;
    }
  }

  lemma ArrayTypeText(b: string, n: nat)
    requires n > 0
    ensures ParseTypeText(b + "(" + DecimalString(n) + ")") == TypeRef(b, n)
  {
    var d := DecimalString(n);
    var s := b + "(" + d + ")";
    assert '(' !in d + ")" by {
      forall i | 0 <= i < |d| ensures IsDigit(d[i]) { }
    }
    LastIndexOfSplit(b, '(', d + ")");
    assert s == b + ['('] + (d + ")");
    var k := LastIndexOf(s, '(');
    assert k == |b|;
    var inner := s[k + 1..|s| - 1];
    assert inner == d;
    assert s[..k] == b;
    DecimalRoundTrip(n);
    assert DecimalValue(inner) == n;
  }

  /** The excluded cases are ambiguous: a rank-0 base ending in "(digits)"
      prints like an array type, and a negative rank prints like rank 0. */
  lemma TypeRefTextAmbiguous()
    ensures ConvertTypeRef(TypeRef("A(2)", 0)) == ConvertTypeRef(TypeRef("A", 2))
    ensures ConvertTypeRef(TypeRef("A", -1)) == ConvertTypeRef(TypeRef("A", 0))
  {
    assert DecimalString(2) == "2";
  }

  /** What ConvertNoNamespace keeps of a qualified name: its local part and
      its rank, both recoverable from the text. */
  lemma NoNamespaceKeepsLocalNameAndRank(q: string, local: string, rank: int)
    requires '.' !in local && rank >= 0
    requires rank == 0 ==> !EndsWithRankSuffix(local)
    ensures ParseTypeText(ConvertNoNamespace(TypeRef(q + "." + local, rank))) == TypeRef(local, rank)
  {
    NoNamespaceQualified(q, local, rank);
    TypeRefRoundTrip(TypeRef(local, rank));
  }

  // ---------------------------------------------------------------------------
  // Expressions

  /** CodeDomPrinter.Convert(CodeExpression): a field reference ends with a
      dot and the field's name, and an operation starts with its operator and
      "(" and ends with ")". */
  function ConvertExpression(e: Expr): (r: string)
    ensures e.FieldRef? ==>
      |e.fieldName| < |r| && r[|r| - |e.fieldName| - 1..] == "." + e.fieldName
    ensures e.BinaryOp? ==>
      |e.operator| + 1 < |r| && r[..|e.operator| + 1] == e.operator + "(" && r[|r| - 1] == ')'
  {
    match e
    case Primitive(v) => v
    case FieldRef(target, field) => ConvertExpression(target) + "." + field
    case TypeRefExpr(t) => ConvertNoNamespace(t)
    case BinaryOp(op, left, right) =>
      op + "(" + ConvertExpression(left) + ")(" + ConvertExpression(right) + ")"
    case OtherExpr(text) => text
  }

  /** No name or opaque text in the expression contains a parenthesis. */
  predicate LeavesParenFree(e: Expr)
  {
    match e
    case Primitive(v) => ParenFree(v)
    case FieldRef(target, field) => LeavesParenFree(target) && ParenFree(field)
    case TypeRefExpr(t) => ParenFree(t.baseType)
    case BinaryOp(op, left, right) => ParenFree(op) && LeavesParenFree(left) && LeavesParenFree(right)
    case OtherExpr(text) => ParenFree(text)
  }

  /** The parentheses the printer writes around operands and ranks nest properly. */
  lemma {:induction false} ExpressionBalanced(e: Expr)
    requires LeavesParenFree(e)
    ensures Balanced(ConvertExpression(e))
  {
    match e
    case Primitive(v) => ParenFreeBalanced(v);
    case OtherExpr(text) => ParenFreeBalanced(text);
    case FieldRef(target, field) =>
      ExpressionBalanced(target);
      ParenFreeBalanced("." + field);
      BalancedAppend(ConvertExpression(target), "." + field);
      assert ConvertExpression(e) == ConvertExpression(target) + ("." + field);
    case TypeRefExpr(t) => NoNamespaceBalanced(t);
    case BinaryOp(op, left, right) =>
      ExpressionBalanced(left);
      ExpressionBalanced(right);
      OperatorBalanced(op, ConvertExpression(left), ConvertExpression(right));
  }

  lemma NoNamespaceBalanced(t: TypeRef)
    requires ParenFree(t.baseType)
    ensures Balanced(ConvertNoNamespace(t))
  {
    var b := t.baseType;
    var index := LastIndexOf(b, '.');
    if index < 0 {
      ParenFreeBalanced(b);
    } else {
      var local := b[index + 1..];
      assert ParenFree(local) by {
        forall i | 0 <= i < |local| ensures local[i] != '(' && local[i] != ')' {
          assert local[i] == b[index + 1 + i];
        }
      }
      ParenFreeBalanced(local);
      if t.arrayRank > 0 {
        BalancedAppend(local, RankSuffix(t.arrayRank));
      } else {
        assert local + RankSuffix(t.arrayRank) == local;
      }
    }
  }

  lemma OperatorBalanced(op: string, l: string, r: string)
    requires ParenFree(op) && Balanced(l) && Balanced(r)
    ensures Balanced(op + "(" + l + ")(" + r + ")")
  {
    BalancedWrap(l);
    BalancedWrap(r);
    ParenFreeBalanced(op);
    BalancedAppend(op, "(" + l + ")");
    BalancedAppend(op + ("(" + l + ")"), "(" + r + ")");
    assert op + "(" + l + ")(" + r + ")" == op + ("(" + l + ")") + ("(" + r + ")");
  }

  /** A field of a type, as in "CallingConvention.StdCall": the type is
      printed without its namespace. */
  lemma FieldOfTypeText(q: string, local: string, field: string)
    requires '.' !in local
    ensures ConvertExpression(FieldRef(TypeRefExpr(TypeRef(q + "." + local, 0)), field)) == local + "." + field
  {
    NoNamespaceQualified(q, local, 0);
  }

  // ---------------------------------------------------------------------------
  // Attributes

  /** One attribute argument: its value, preceded by "name=" when it is named. */
  function ArgText(arg: AttrArg): string
  {
    if arg.name == "" then ConvertExpression(arg.value)
    else arg.name + "=" + ConvertExpression(arg.value)
  }

  function ArgTexts(args: seq<AttrArg>): (r: seq<string>)
    ensures |r| == |args|
  {
    seq(|args|, i requires 0 <= i < |args| => ArgText(args[i]))
  }

  /** The text of one attribute: its unqualified type name and its arguments,
      comma-separated, in parentheses. */
  function AttributeText(decl: Attr): string
  {
    ConvertNoNamespace(decl.attributeType) + "(" + Join(ArgTexts(decl.arguments), ',') + ")"
  }

  function AttributeTexts(col: seq<Attr>): (r: seq<string>)
    ensures |r| == |col|
  {
    seq(|col|, i requires 0 <= i < |col| => AttributeText(col[i]))
  }

  /** The text of an attribute collection: the attributes, comma-separated. */
  function AttributeListText(col: seq<Attr>): string
  {
    Join(AttributeTexts(col), ',')
  }

  /** CodeDomPrinter.Convert(CodeAttributeDeclaration), with its StringBuilder. */
  method ConvertAttribute(decl: Attr) returns (s: string)
    ensures s == AttributeText(decl)
  {
    var head := ConvertNoNamespace(decl.attributeType) + "(";
    var texts := ArgTexts(decl.arguments);
    s := head;
    var first := true;
    for i := 0 to |decl.arguments|
      invariant first <==> i == 0
      invariant s == head + Join(texts[..i], ',')
    {
      if !first {
        s := s + ",";
      }
      ghost var before := s;
      var arg := decl.arguments[i];
      if arg.name == "" {
        s := s + ConvertExpression(arg.value);
      } else {
        s := s + arg.name + "=" + ConvertExpression(arg.value);
        AppendAssoc(before, arg.name + "=", ConvertExpression(arg.value));
        AppendAssoc(before, arg.name, "=");
      }
      first := false;
      JoinLoopStep(head, texts, i, ',', before);
    }
    s := s + ")";
    assert texts[..|decl.arguments|] == texts;
  }

  /** CodeDomPrinter.Convert(CodeAttributeDeclarationCollection). */
  method ConvertAttributes(col: seq<Attr>) returns (s: string)
    ensures s == AttributeListText(col)
  {
    var texts := AttributeTexts(col);
    s := "";
    var first := true;
    for i := 0 to |col|
      invariant first <==> i == 0
      invariant s == Join(texts[..i], ',')
    {
      if !first {
        s := s + ",";
      }
      ghost var before := s;
      var d := ConvertAttribute(col[i]);
      s := s + d;
      first := false;
      JoinLoopStepFromEmpty(texts, i, ',', before);
    }
    assert texts[..|col|] == texts;
  }

  /** An empty collection prints as ""; otherwise, when no attribute's text
      holds a comma, the text is the attributes in order with exactly one
      comma between neighbours. */
  lemma AttributeListItems(col: seq<Attr>)
    ensures col == [] ==> AttributeListText(col) == ""
    ensures col != [] && (forall i | 0 <= i < |col| :: ',' !in AttributeText(col[i])) ==>
      Split(AttributeListText(col), ',') == AttributeTexts(col) &&
      Count(AttributeListText(col), ',') == |col| - 1
  {
    if col != [] && (forall i | 0 <= i < |col| :: ',' !in AttributeText(col[i])) {
      var texts := AttributeTexts(col);
      assert forall i | 0 <= i < |texts| :: ',' !in texts[i];
      SplitJoin(texts, ',');
      JoinSeparatorCount(texts, ',');
    }
  }

  /** An attribute's text is its name and "(" , its argument texts in order,
      and ")"; an unnamed argument prints as its value, a named one as
      name=value. */
  lemma AttributeArguments(decl: Attr)
    ensures var t, head := AttributeText(decl), ConvertNoNamespace(decl.attributeType) + "(";
      |head| < |t| && t[..|head|] == head && t[|t| - 1] == ')' &&
      (decl.arguments == [] ==> t == head + ")") &&
      (decl.arguments != [] && (forall i | 0 <= i < |decl.arguments| :: ',' !in ArgText(decl.arguments[i])) ==>
        Split(t[|head|..|t| - 1], ',') == ArgTexts(decl.arguments))
  {
    var t, head := AttributeText(decl), ConvertNoNamespace(decl.attributeType) + "(";
    var inner := Join(ArgTexts(decl.arguments), ',');
    assert t == head + inner + ")";
    assert t[..|head|] == head && t[|head|..|t| - 1] == inner;
    if decl.arguments != [] && (forall i | 0 <= i < |decl.arguments| :: ',' !in ArgText(decl.arguments[i])) {
      SplitJoin(ArgTexts(decl.arguments), ',');
    }
  }

  // ---------------------------------------------------------------------------
  // Methods

  function DirectionText(d: Direction): string
  {
    match d
    case In => "In "
    case Out => "Out "
    case Ref => "Ref "
  }

  /** One parameter: its attributes, its direction word and its unqualified type. */
  function ParamText(p: Param): string
  {
    AttributeListText(p.customAttributes) + DirectionText(p.direction) + ConvertNoNamespace(p.paramType)
  }

  function ParamTexts(ps: seq<Param>): (r: seq<string>)
    ensures |r| == |ps|
  {
    seq(|ps|, i requires 0 <= i < |ps| => ParamText(ps[i]))
  }

  /** " As " with the return type's attributes and type, when there is a return type. */
  function ReturnText(m: Method): string
  {
    match m.returnType
    case None => ""
    case Some(t) => " As " + AttributeListText(m.returnTypeCustomAttributes) + ConvertNoNamespace(t)
  }

  /** The signature text of a method. */
  function MethodText(m: Method): string
  {
    m.name + "(" + Join(ParamTexts(m.parameters), ',') + ")" + ReturnText(m)
  }

  /** CodeDomPrinter.Convert(CodeMemberMethod), with its StringBuilder. */
  method ConvertMethod(m: Method) returns (s: string)
    ensures s == MethodText(m)
  {
    var head := m.name + "(";
    var texts := ParamTexts(m.parameters);
    s := head;
    var isFirst := true;
    for i := 0 to |m.parameters|
      invariant isFirst <==> i == 0
      invariant s == head + Join(texts[..i], ',')
    {
      if !isFirst {
        s := s + ",";
      }
      isFirst := false;
      ghost var before := s;
      var p := m.parameters[i];
      var attrs := ConvertAttributes(p.customAttributes);
      s := s + attrs;
      var word: string;
      match p.direction {
        case In => word := "In ";
        case Out => word := "Out ";
        case Ref => word := "Ref ";
      }
      s := s + word;
      var typeText := ConvertNoNamespace(p.paramType);
      s := s + typeText;
      ParamStep(before, p, attrs, word, typeText);
      JoinLoopStep(head, texts, i, ',', before);
    }
    s := s + ")";
    assert texts[..|m.parameters|] == texts;
    ghost var signature := s;
    if m.returnType.Some? {
      s := s + " As ";
      var returnAttrs := ConvertAttributes(m.returnTypeCustomAttributes);
      s := s + returnAttrs;
      var typeText := ConvertNoNamespace(m.returnType.value);
      s := s + typeText;
      AppendAssoc(signature, " As ", returnAttrs);
      AppendAssoc(signature, " As " + returnAttrs, typeText);
    }
  }

  /** The text one parameter adds to the builder is its ParamText. */
  lemma ParamStep(before: string, p: Param, attrs: string, word: string, typeText: string)
    requires attrs == AttributeListText(p.customAttributes)
    requires word == DirectionText(p.direction)
    requires typeText == ConvertNoNamespace(p.paramType)
    ensures before + attrs + word + typeText == before + ParamText(p)
  {
    AppendAssoc(before, attrs, word);
    AppendAssoc(before, attrs + word, typeText);
  }

  /** A signature is the method name and "(", the parameter list and ")",
      followed by " As " with the return attributes and type exactly when
      there is a return type. */
  lemma MethodSignatureShape(m: Method)
    ensures var sig, params := MethodText(m), Join(ParamTexts(m.parameters), ',');
      var k := |m.name| + 1 + |params| + 1;
      k <= |sig| && sig[..k] == m.name + "(" + params + ")" &&
      (m.returnType.None? <==> |sig| == k) &&
      (m.returnType.Some? ==>
        sig[k..] == " As " + AttributeListText(m.returnTypeCustomAttributes) + ConvertNoNamespace(m.returnType.value))
  {
    var head := m.name + "(" + Join(ParamTexts(m.parameters), ',') + ")";
    var sig := MethodText(m);
    assert sig == head + ReturnText(m);
    assert sig[..|head|] == head;
    assert sig[|head|..] == ReturnText(m);
  }

  /** When no parameter's text holds a comma, the parameter list of a
      signature splits back into the parameters' texts, in order. */
  lemma MethodParametersInOrder(m: Method)
    requires m.parameters != []
    requires forall i | 0 <= i < |m.parameters| :: ',' !in ParamText(m.parameters[i])
    ensures var sig, params := MethodText(m), Join(ParamTexts(m.parameters), ',');
      |m.name| + 1 + |params| <= |sig| &&
      Split(sig[|m.name| + 1..|m.name| + 1 + |params|], ',') == ParamTexts(m.parameters)
  {
    var texts := ParamTexts(m.parameters);
    var params := Join(texts, ',');
    var sig := MethodText(m);
    var head := m.name + "(";
    var tail := ")" + ReturnText(m);
    assert sig == head + params + ")" + ReturnText(m);
    AppendAssoc(head + params, ")", ReturnText(m));
    assert sig == head + params + tail;
    assert sig[|head|..|head| + |params|] == params;
    assert forall i | 0 <= i < |texts| :: ',' !in texts[i];
    SplitJoin(texts, ',');
  }

  /** Reads the direction and the type text back from a parameter without attributes. */
  function ParseParamText(s: string): Option<(Direction, string)>
  {
    if |s| >= 3 && s[..3] == "In " then Some((In, s[3..]))
    else if |s| >= 4 && s[..4] == "Out " then Some((Out, s[4..]))
    else if |s| >= 4 && s[..4] == "Ref " then Some((Ref, s[4..]))
    else None
  }

  /** A parameter without attributes prints its direction word first, and the
      word tells the direction apart. */
  lemma ParamDirectionRecovered(p: Param)
    requires p.customAttributes == []
    ensures ParseParamText(ParamText(p)) == Some((p.direction, ConvertNoNamespace(p.paramType)))
  {
    var t := ConvertNoNamespace(p.paramType);
    assert AttributeTexts(p.customAttributes) == [];
    var s := ParamText(p);
    assert s == DirectionText(p.direction) + t;
    match p.direction
    case In => assert s[..3] == "In " && s[3..] == t;
    case Out =>
      assert s[..3][0] != "In "[0];
      assert s[..4] == "Out " && s[4..] == t;
    case Ref =>
      assert s[..3][0] != "In "[0] && s[..4][0] != "Out "[0];
      assert s[..4] == "Ref " && s[4..] == t;
  }

  // ---------------------------------------------------------------------------
  // Fields

  /** The text of a field: its attributes, its type with the namespace, a
      space and its name. */
  function FieldText(f: Field): string
  {
    AttributeListText(f.customAttributes) + ConvertTypeRef(f.fieldType) + " " + f.name
  }

  /** CodeDomPrinter.Convert(CodeMemberField), with its StringBuilder. */
  method ConvertField(f: Field) returns (s: string)
    ensures s == FieldText(f)
  {
    var attrs := ConvertAttributes(f.customAttributes);
    s := attrs;
    s := s + ConvertTypeRef(f.fieldType);
    s := s + " ";
    s := s + f.name;
  }

  /** Reads a field without attributes back: the name after the last space,
      the type before it. */
  function ParseFieldText(s: string): Option<(TypeRef, string)>
  {
    var k := LastIndexOf(s, ' ');
    if k < 0 then None else Some((ParseTypeText(s[..k]), s[k + 1..]))
  }

  /** A field without attributes is determined by its text, when its name has
      no space and its type is not one of the ambiguous ones of
      TypeRefRoundTrip. */
  lemma FieldRoundTrip(f: Field)
    requires f.customAttributes == []
    requires ' ' !in f.name
    requires f.fieldType.arrayRank >= 0
    requires f.fieldType.arrayRank == 0 ==> !EndsWithRankSuffix(f.fieldType.baseType)
    ensures ParseFieldText(FieldText(f)) == Some((f.fieldType, f.name))
  {
    var t := ConvertTypeRef(f.fieldType);
    var s := t + [' '] + f.name;
    AttributeListItems(f.customAttributes);
    assert FieldText(f) == s;
    LastIndexOfSplit(t, ' ', f.name);
    assert s[..|t|] == t;
    assert s[|t| + 1..] == f.name;
    TypeRefRoundTrip(f.fieldType);
  }
}
