/** The parts of a generated CodeDom declaration tree that the test printers
    and lookups read, as plain values. Every name is a string compared
    ordinally; a null name is modelled as the empty string. */
module CodeDom {

  datatype Option<+T> = None | Some(value: T)

  /** CodeTypeReference: a base type name and an array rank (a C# int;
      rank 0 is not an array). */
  datatype TypeRef = TypeRef(baseType: string, arrayRank: int)

  /** CodeExpression, for the kinds the printer distinguishes. The primitive's
      Value.ToString(), the operator's enum name and the ToString() of every
      other expression kind are carried as opaque text. */
  datatype Expr =
    | Primitive(valueText: string)
    | FieldRef(targetObject: Expr, fieldName: string)
    | TypeRefExpr(exprType: TypeRef)
    | BinaryOp(operator: string, left: Expr, right: Expr)
    | OtherExpr(text: string)

  /** CodeAttributeArgument; an unnamed (positional) argument has name "". */
  datatype AttrArg = AttrArg(name: string, value: Expr)

  /** CodeAttributeDeclaration: its Name and its AttributeType, and its
      arguments in order. CodeDom sets Name and AttributeType's BaseType
      together; here they are independent fields, a generalisation: the
      printer reads only the type and the lookup only the name. */
  datatype Attr = Attr(name: string, attributeType: TypeRef, arguments: seq<AttrArg>)

  /** FieldDirection. */
  datatype Direction = In | Out | Ref

  /** CodeParameterDeclarationExpression. */
  datatype Param = Param(customAttributes: seq<Attr>, direction: Direction, paramType: TypeRef)

  /** CodeMemberMethod; a null ReturnType is None. */
  datatype Method = Method(
    name: string,
    customAttributes: seq<Attr>,
    parameters: seq<Param>,
    returnType: Option<TypeRef>,
    returnTypeCustomAttributes: seq<Attr>)

  /** CodeMemberField. */
  datatype Field = Field(name: string, customAttributes: seq<Attr>, fieldType: TypeRef)

  /** CodeTypeMember: a method, a field, or any other member, known by name. */
  datatype TypeMember =
    | MethodMember(memberMethod: Method)
    | FieldMember(memberField: Field)
    | OtherMember(otherName: string)
  {
    function Name(): string
    {
      match this
      case MethodMember(m) => m.name
      case FieldMember(f) => f.name
      case OtherMember(n) => n
    }
  }

  /** CodeTypeDeclaration. */
  datatype TypeDecl = TypeDecl(name: string, customAttributes: seq<Attr>, members: seq<TypeMember>)
}
