/** GeneratedCodeVerification: the lookups the tests run over a generated
    declaration tree. Each is a first-match linear search with ordinal name
    comparison. A thrown exception is an `Err` result; a failed Xunit
    assertion is a `Fail` outcome, or `None` where the helper's only
    assertion is that something was found. */
module GeneratedCodeVerification {
  import opened Text
  import opened CodeDom
  import opened CodeDomPrinter

  datatype Result<T> = Ok(value: T) | Err(message: string)

  datatype Outcome = Pass | Fail(message: string)

  // ---------------------------------------------------------------------------
  // First match

  /** The position of the first key equal to `key`, if any. */
  function IndexOf(keys: seq<string>, key: string): (r: Option<nat>)
    ensures r.Some? ==> r.value < |keys| && keys[r.value] == key && key !in keys[..r.value]
    ensures r.None? ==> key !in keys
  {
    if keys == [] then None
    else if keys[0] == key then Some(0)
    else
      match IndexOf(keys[1..], key)
      case None => None
      case Some(i) =>
        assert keys[..i + 1] == [keys[0]] + keys[1..][..i];
        Some(i + 1)
  }

  /** Conversely, the first position holding `key` is what IndexOf returns. */
  lemma IndexOfFirst(keys: seq<string>, key: string, i: nat)
    requires i < |keys| && keys[i] == key && key !in keys[..i]
    ensures IndexOf(keys, key) == Some(i)
  {
    assert keys[..i + 1][i] == key;
  }

  function TypeNames(col: seq<TypeDecl>): seq<string>
  {
    seq(|col|, i requires 0 <= i < |col| => col[i].name)
  }

  function MemberNames(members: seq<TypeMember>): seq<string>
  {
    seq(|members|, i requires 0 <= i < |members| => members[i].Name())
  }

  function AttributeNames(col: seq<Attr>): seq<string>
  {
    seq(|col|, i requires 0 <= i < |col| => col[i].name)
  }

  function ArgumentNames(args: seq<AttrArg>): seq<string>
  {
    seq(|args|, i requires 0 <= i < |args| => args[i].name)
  }

  function MethodNames(procs: seq<Method>): seq<string>
  {
    seq(|procs|, i requires 0 <= i < |procs| => procs[i].name)
  }

  // ---------------------------------------------------------------------------
  // Types and members

  /** The exception text when no type has the name: every type's name, each
      followed by a space, in order. */
  function MissingTypeMessage(name: string, col: seq<TypeDecl>): string
  {
    "Could not find a type named " + name + ".  Found: " +
    Concat(seq(|col|, i requires 0 <= i < |col| => col[i].name + " "))
  }

  /** GeneratedCodeVerification.VerifyType: the first type with the name, or
      the exception listing every type name. */
  method VerifyType(col: seq<TypeDecl>, name: string) returns (r: Result<TypeDecl>)
    ensures r == match IndexOf(TypeNames(col), name)
      case Some(k) => Ok(col[k])
      case None => Err(MissingTypeMessage(name, col))
  {
    var ctd: Option<TypeDecl> := None;
    var i := 0;
    while i < |col|
      invariant 0 <= i <= |col|
      invariant ctd.None? && name !in TypeNames(col)[..i]
    {
      if col[i].name == name {
        ctd := Some(col[i]);
        break;
      }
      assert TypeNames(col)[..i + 1] == TypeNames(col)[..i] + [col[i].name];
      i := i + 1;
    }
    if ctd.Some? {
      IndexOfFirst(TypeNames(col), name, i);
      return Ok(ctd.value);
    }
    assert TypeNames(col)[..|col|] == TypeNames(col);
    var found := seq(|col|, k requires 0 <= k < |col| => col[k].name + " ");
    var msg := "Could not find a type named " + name + ".  Found: ";
    ghost var head := msg;
    for j := 0 to |col|
      invariant msg == head + Concat(found[..j])
    {
      msg := msg + col[j].name + " ";
      assert found[..j + 1] == found[..j] + [found[j]];
      AppendAssoc(head, Concat(found[..j]), found[j]);
      AppendAssoc(msg[..|msg| - |col[j].name| - 1], col[j].name, " ");
    }
    assert found[..|col|] == found;
    r := Err(msg);
  }

  /** GeneratedCodeVerification.VerifyMember: the first member with the name;
      None is the failed NotNull assertion. */
  method VerifyMember(ctd: TypeDecl, name: string) returns (r: Option<TypeMember>)
    ensures r == match IndexOf(MemberNames(ctd.members), name)
      case Some(k) => Some(ctd.members[k])
      case None => None
  {
    r := None;
    var i := 0;
    while i < |ctd.members|
      invariant 0 <= i <= |ctd.members|
      invariant r.None? && name !in MemberNames(ctd.members)[..i]
    {
      if name == ctd.members[i].Name() {
        r := Some(ctd.members[i]);
        break;
      }
      assert MemberNames(ctd.members)[..i + 1] == MemberNames(ctd.members)[..i] + [ctd.members[i].Name()];
      i := i + 1;
    }
    if r.Some? {
      IndexOfFirst(MemberNames(ctd.members), name, i);
    } else {
      assert MemberNames(ctd.members)[..|ctd.members|] == MemberNames(ctd.members);
    }
  }

  /** GeneratedCodeVerification.VerifyField(ctd, name, ref cField): the first
      member with the name, when that member is a field. */
  method VerifyField(ctd: TypeDecl, name: string) returns (r: Option<Field>)
    ensures r == match IndexOf(MemberNames(ctd.members), name)
      case Some(k) => (if ctd.members[k].FieldMember? then Some(ctd.members[k].memberField) else None)
      case None => None
  {
    var mem := VerifyMember(ctd, name);
    if mem.Some? && mem.value.FieldMember? {
      r := Some(mem.value.memberField);
    } else {
      r := None;
    }
  }

  // ---------------------------------------------------------------------------
  // Attributes and their arguments

  /** GeneratedCodeVerification.VerifyAttributeImpl: the first attribute
      whose Name is the type's full name, or None. */
  method VerifyAttributeImpl(col: seq<Attr>, typeFullName: string) returns (decl: Option<Attr>)
    ensures decl == match IndexOf(AttributeNames(col), typeFullName)
      case Some(k) => Some(col[k])
      case None => None
  {
    decl := None;
    var i := 0;
    while i < |col|
      invariant 0 <= i <= |col|
      invariant decl.None? && typeFullName !in AttributeNames(col)[..i]
    {
      if typeFullName == col[i].name {
        decl := Some(col[i]);
        break;
      }
      assert AttributeNames(col)[..i + 1] == AttributeNames(col)[..i] + [col[i].name];
      i := i + 1;
    }
    if decl.Some? {
      IndexOfFirst(AttributeNames(col), typeFullName, i);
    } else {
      assert AttributeNames(col)[..|col|] == AttributeNames(col);
    }
  }

  /** GeneratedCodeVerification.VerifyArgumentImpl: the first argument of the
      attribute with the name ("" finds the first unnamed one), or None. */
  method VerifyArgumentImpl(decl: Attr, name: string) returns (arg: Option<AttrArg>)
    ensures arg == match IndexOf(ArgumentNames(decl.arguments), name)
      case Some(k) => Some(decl.arguments[k])
      case None => None
  {
    var args := decl.arguments;
    arg := None;
    var i := 0;
    while i < |args|
      invariant 0 <= i <= |args|
      invariant arg.None? && name !in ArgumentNames(args)[..i]
    {
      if name == args[i].name {
        arg := Some(args[i]);
        break;
      }
      assert ArgumentNames(args)[..i + 1] == ArgumentNames(args)[..i] + [args[i].name];
      i := i + 1;
    }
    if arg.Some? {
      IndexOfFirst(ArgumentNames(args), name, i);
    } else {
      assert ArgumentNames(args)[..|args|] == ArgumentNames(args);
    }
  }

  /** GeneratedCodeVerification.VerifyNoAttribute: the Null assertion fails
      exactly when some attribute has the type's full name. Xunit's own
      failure text is not modelled and is left empty. */
  method VerifyNoAttribute(col: seq<Attr>, typeFullName: string) returns (r: Outcome)
    ensures r == if typeFullName in AttributeNames(col) then Fail("") else Pass
  {
    var decl := VerifyAttributeImpl(col, typeFullName);
    r := if decl.None? then Pass else Fail("");
  }

  /** GeneratedCodeVerification.VerifyNoArgument: the Null assertion fails
      exactly when the attribute has an argument with the name. */
  method VerifyNoArgument(decl: Attr, name: string) returns (r: Outcome)
    ensures r == if name in ArgumentNames(decl.arguments) then Fail("") else Pass
  {
    var arg := VerifyArgumentImpl(decl, name);
    r := if arg.None? then Pass else Fail("");
  }

  // ---------------------------------------------------------------------------
  // Procedures

  /** The methods among the members, in member order. */
  function MethodsOf(members: seq<TypeMember>): (r: seq<Method>)
    ensures |r| <= |members|
    ensures forall m :: m in r <==> MethodMember(m) in members
  {
    if members == [] then []
    else
      var front, last := members[..|members| - 1], members[|members| - 1];
      assert members == front + [last];
      MethodsOf(front) + (if last.MethodMember? then [last.memberMethod] else [])
  }

  /** Filtering keeps the members' order: it distributes over concatenation. */
  lemma {:induction false} MethodsOfAppend(a: seq<TypeMember>, b: seq<TypeMember>)
    ensures MethodsOf(a + b) == MethodsOf(a) + MethodsOf(b)
  {
    if b == [] {
      assert a + b == a;
    } else {
      var front := b[..|b| - 1];
      assert (a + b)[..|a + b| - 1] == a + front;
      MethodsOfAppend(a, front);
    }
  }

  /** GeneratedCodeVerification.ConvertToProc after the code has been
      converted: the methods of the "NativeMethods" type, in order; the
      exception from VerifyType when there is no such type. */
  method ConvertToProc(col: seq<TypeDecl>) returns (r: Result<seq<Method>>)
    ensures r == match IndexOf(TypeNames(col), "NativeMethods")
      case Some(k) => Ok(MethodsOf(col[k].members))
      case None => Err(MissingTypeMessage("NativeMethods", col))
  {
    var ctd := VerifyType(col, "NativeMethods");
    if ctd.Err? {
      return Err(ctd.message);
    }
    var members := ctd.value.members;
    var list: seq<Method> := [];
    for i := 0 to |members|
      invariant list == MethodsOf(members[..i])
    {
      var mem := members[i];
      if mem.MethodMember? {
        list := list + [mem.memberMethod];
      }
      assert members[..i + 1][..i] == members[..i];
    }
    assert members[..|members|] == members;
    r := Ok(list);
  }

  /** GeneratedCodeVerification.ConvertToSingleProc after the conversion: the
      first method with the name; None is the failed NotNull assertion. */
  method ConvertToSingleProc(procs: seq<Method>, name: string) returns (found: Option<Method>)
    ensures found == match IndexOf(MethodNames(procs), name)
      case Some(k) => Some(procs[k])
      case None => None
  {
    found := None;
    var i := 0;
    while i < |procs|
      invariant 0 <= i <= |procs|
      invariant found.None? && name !in MethodNames(procs)[..i]
    {
      if name == procs[i].name {
        found := Some(procs[i]);
        break;
      }
      assert MethodNames(procs)[..i + 1] == MethodNames(procs)[..i] + [procs[i].name];
      i := i + 1;
    }
    if found.Some? {
      IndexOfFirst(MethodNames(procs), name, i);
    } else {
      assert MethodNames(procs)[..|procs|] == MethodNames(procs);
    }
  }

  /** The printed signature of every method, in order. */
  function Signatures(procs: seq<Method>): (r: seq<string>)
    ensures |r| == |procs|
  {
    if procs == [] then []
    else Signatures(procs[..|procs| - 1]) + [MethodText(procs[|procs| - 1])]
  }

  /** The i-th signature is the i-th method's printed text. */
  lemma {:induction false} SignatureAt(procs: seq<Method>, i: nat)
    requires i < |procs|
    ensures Signatures(procs)[i] == MethodText(procs[i])
  {
    if i < |procs| - 1 {
      SignatureAt(procs[..|procs| - 1], i);
    }
  }

  /** The signatures passed over by the search, each preceded by a line break. */
  function SeenText(sigs: seq<string>, newline: string): string
  {
    if sigs == [] then ""
    else SeenText(sigs[..|sigs| - 1], newline) + (newline + sigs[|sigs| - 1])
  }

  /** `all` is the text of the methods passed over before the first one
      that prints as `sig`. */
  predicate SeenBeforeMatch(procs: seq<Method>, sig: string, all: string, newline: string)
  {
    exists k | 0 <= k < |procs| ::
      Signatures(procs)[k] == sig && sig !in Signatures(procs)[..k] && all == SeenText(Signatures(procs)[..k], newline)
  }

  /** The match SeenBeforeMatch speaks of is the first one, so the text is
      determined: it is the text of the signatures before IndexOf's position. */
  lemma SeenBeforeFirstMatch(procs: seq<Method>, sig: string, all: string, newline: string)
    requires SeenBeforeMatch(procs, sig, all, newline)
    ensures IndexOf(Signatures(procs), sig).Some?
    ensures all == SeenText(Signatures(procs)[..IndexOf(Signatures(procs), sig).value], newline)
  {
    var k :| 0 <= k < |procs| && Signatures(procs)[k] == sig && sig !in Signatures(procs)[..k] &&
      all == SeenText(Signatures(procs)[..k], newline);
    IndexOfFirst(Signatures(procs), sig, k);
  }

  /** Passing over a signature that is not `sig` extends the text seen. */
  lemma PassOver(sigs: seq<string>, i: nat, sig: string, all: string, newline: string)
    requires i < |sigs| && sigs[i] != sig && sig !in sigs[..i]
    requires all == SeenText(sigs[..i], newline)
    ensures all + newline + sigs[i] == SeenText(sigs[..i + 1], newline)
    ensures sig !in sigs[..i + 1]
  {
    assert sigs[..i + 1][..i] == sigs[..i];
    AppendAssoc(all, newline, sigs[i]);
    assert sigs[..i + 1] == sigs[..i] + [sigs[i]];
  }

  /** A match at position k, with the text of the methods before it. */
  lemma FoundAt(procs: seq<Method>, sig: string, all: string, newline: string, k: nat)
    requires k < |procs| && Signatures(procs)[k] == sig && sig !in Signatures(procs)[..k]
    requires all == SeenText(Signatures(procs)[..k], newline)
    ensures SeenBeforeMatch(procs, sig, all, newline)
  {
  }

  /** GeneratedCodeVerification.VerifyProcImpl over the converted methods:
      true exactly when some method prints as `sig`; `all` starts empty and
      collects a line break and the signature of every method passed over
      before the match, so of all of them on a false result. `newline` is
      Environment.NewLine. */
  method VerifyProcImpl(procs: seq<Method>, sig: string, newline: string) returns (found: bool, all: string)
    ensures found <==> sig in Signatures(procs)
    ensures found ==> SeenBeforeMatch(procs, sig, all, newline)
    ensures !found ==> all == SeenText(Signatures(procs), newline)
  {
    ghost var sigs := Signatures(procs);
    all := "";
    for i := 0 to |procs|
      invariant all == SeenText(sigs[..i], newline)
      invariant sig !in sigs[..i]
    {
      var p := ConvertMethod(procs[i]);
      SignatureAt(procs, i);
      if sig == p {
        FoundAt(procs, sig, all, newline, i);
        return true, all;
      } else {
        ghost var before := all;
        all := all + newline;
        all := all + p;
        PassOver(sigs, i, sig, before, newline);
      }
    }
    assert sigs[..|procs|] == sigs;
    found := false;
  }

  /** The position of the first signature not among the known ones, if any. */
  function FirstUnmatched(sigs: seq<string>, known: seq<string>): (r: Option<nat>)
    ensures r.Some? ==>
      r.value < |sigs| && sigs[r.value] !in known && forall j | 0 <= j < r.value :: sigs[j] in known
    ensures r.None? ==> forall j | 0 <= j < |sigs| :: sigs[j] in known
  {
    if sigs == [] then None
    else if sigs[0] !in known then Some(0)
    else
      match FirstUnmatched(sigs[1..], known)
      case None => None
      case Some(i) => Some(i + 1)
  }

  /** The first signature absent from `known` is where FirstUnmatched stops. */
  lemma {:induction false} FirstUnmatchedAt(sigs: seq<string>, known: seq<string>, i: nat)
    requires i < |sigs| && sigs[i] !in known
    requires forall j | 0 <= j < i :: sigs[j] in known
    ensures FirstUnmatched(sigs, known) == Some(i)
  {
    if i > 0 {
      FirstUnmatchedAt(sigs[1..], known, i - 1);
    }
  }

  /** One more known signature extends the known prefix. */
  lemma KnownStep(sigs: seq<string>, known: seq<string>, i: nat)
    requires i < |sigs| && sigs[i] in known
    requires forall j | 0 <= j < i :: sigs[j] in known
    ensures forall j | 0 <= j < i + 1 :: sigs[j] in known
  {
  }

  /** When every signature is known, FirstUnmatched finds nothing. */
  lemma FirstUnmatchedNone(sigs: seq<string>, known: seq<string>)
    requires forall j | 0 <= j < |sigs| :: sigs[j] in known
    ensures FirstUnmatched(sigs, known).None?
  {
    if sigs != [] {
      assert sigs[0] in known;
    }
  }

  /** The assertion text when a signature is missing. Constants.vbCrLf is "\r\n". */
  function NotFoundMessage(sig: string, all: string): string
  {
    "Could not find the method. Looking For :" + sig + "\r\n" + "Found:" + all
  }

  /** GeneratedCodeVerification.VerifyProc over the converted methods: passes
      when every signature is printed by some method; otherwise the assertion
      fails on the first missing signature, listing every method's signature. */
  method VerifyProc(procs: seq<Method>, sigs: seq<string>, newline: string) returns (r: Outcome)
    ensures r == match FirstUnmatched(sigs, Signatures(procs))
      case None => Pass
      case Some(j) => Fail(NotFoundMessage(sigs[j], SeenText(Signatures(procs), newline)))
  {
    ghost var known := Signatures(procs);
    var all := "";
    for i := 0 to |sigs|
      invariant forall j | 0 <= j < i :: sigs[j] in known
    {
      var ret;
      ret, all := VerifyProcImpl(procs, sigs[i], newline);
      if !ret {
        FirstUnmatchedAt(sigs, known, i);
        return Fail(NotFoundMessage(sigs[i], all));
      }
      KnownStep(sigs, known, i);
    }
    FirstUnmatchedNone(sigs, known);
    r := Pass;
  }

  /** GeneratedCodeVerification.VerifyNotProc over the converted methods: the
      assertion fails exactly when some method prints as `sig`. */
  method VerifyNotProc(procs: seq<Method>, sig: string, newline: string) returns (r: Outcome)
    ensures r == if sig in Signatures(procs) then Fail("Found a matching method") else Pass
  {
    var all := "";
    var ret;
    ret, all := VerifyProcImpl(procs, sig, newline);
    if ret {
      r := Fail("Found a matching method");
    } else {
      r := Pass;
    }
  }
}
