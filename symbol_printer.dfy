/** SymbolPrinter: the text the tests compare a native symbol tree against,
    the symbol's name followed by each child's text in parentheses. */
module SymbolPrinter {
  import opened Text
  import opened CodeDom

  /** A native symbol: its name and the children GetChildren() yields, in order. */
  datatype Symbol = Symbol(name: string, children: seq<Symbol>)

  /** The canonical text of a symbol tree. It is defined (terminates) on every
      finite tree; shared or cyclic symbol graphs are not representable here. */
  function SymbolText(sym: Symbol): string
    decreases sym
  {
    sym.name + Concat(seq(|sym.children|, i requires 0 <= i < |sym.children| =>
      "(" + SymbolText(sym.children[i]) + ")"))
  }

  /** The parenthesised text of each child, in child order. */
  function GroupTexts(sym: Symbol): (r: seq<string>)
    ensures |r| == |sym.children|
    ensures forall i | 0 <= i < |r| :: r[i] == "(" + SymbolText(sym.children[i]) + ")"
  {
    seq(|sym.children|, i requires 0 <= i < |sym.children| => "(" + SymbolText(sym.children[i]) + ")")
  }

  /** A leaf prints as its name; otherwise the name is followed by one
      "(" + child text + ")" per child, in child order. */
  lemma SymbolTextParts(sym: Symbol)
    ensures sym.children == [] ==> SymbolText(sym) == sym.name
    ensures SymbolText(sym) == sym.name + Concat(GroupTexts(sym))
  {
  }

  /** SymbolPrinter.Convert: appends each child's text, in parentheses, to the name. */
  method Convert(sym: Symbol) returns (str: string)
    ensures str == SymbolText(sym)
    decreases sym
  {
    var groups := GroupTexts(sym);
    str := sym.name;
    for i := 0 to |sym.children|
      invariant str == sym.name + Concat(groups[..i])
    {
      ghost var before := str;
      var child := sym.children[i];
      var text := Convert(child);
      str := str + "(" + text + ")";
      GroupStep(sym, groups, i, before, text);
    }
    assert groups[..|sym.children|] == groups;
    SymbolTextParts(sym);
  }

  /** Appending child i's text in parentheses extends the printed groups by one. */
  lemma GroupStep(sym: Symbol, groups: seq<string>, i: nat, before: string, text: string)
    requires groups == GroupTexts(sym) && i < |groups|
    requires before == sym.name + Concat(groups[..i])
    requires text == SymbolText(sym.children[i])
    ensures before + "(" + text + ")" == sym.name + Concat(groups[..i + 1])
  {
    assert groups[..i + 1] == groups[..i] + [groups[i]];
    AppendAssoc(sym.name, Concat(groups[..i]), groups[i]);
    AppendAssoc(before, "(" + text, ")");
    AppendAssoc(before, "(", text);
  }

  // ---------------------------------------------------------------------------
  // Reading a symbol back

  /** Reads a symbol from its text: the name runs to the first parenthesis,
      and then come the children, each in parentheses. */
  function ParseSymbol(s: string): Option<Symbol>
    decreases |s|, 1
  {
    var n := NameEnd(s);
    match ParseChildren(s[n..])
    case None => None
    case Some(cs) => Some(Symbol(s[..n], cs))
  }

  /** Reads a sequence of parenthesised symbols. */
  function ParseChildren(s: string): Option<seq<Symbol>>
    decreases |s|, 0
  {
    if s == [] then Some([])
    else if s[0] != '(' then None
    else
      var j := MatchingClose(s);
      if j < 1 then None
      else
        match ParseSymbol(s[1..j])
        case None => None
        case Some(c) =>
          match ParseChildren(s[j + 1..])
          case None => None
          case Some(cs) => Some([c] + cs)
  }

  /** No name anywhere in the tree contains a parenthesis. */
  predicate WellNamed(sym: Symbol)
    decreases sym
  {
    ParenFree(sym.name) && forall i | 0 <= i < |sym.children| :: WellNamed(sym.children[i])
  }

  /** The parentheses of a symbol's text nest properly. */
  lemma {:induction false} SymbolTextBalanced(sym: Symbol)
    requires WellNamed(sym)
    ensures Balanced(SymbolText(sym))
    decreases sym, |sym.children| + 1
  {
    var groups := GroupTexts(sym);
    GroupsBalanced(sym, |sym.children|);
    assert groups[..|sym.children|] == groups;
    ParenFreeBalanced(sym.name);
    BalancedAppend(sym.name, Concat(groups));
    SymbolTextParts(sym);
  }

  lemma {:induction false} GroupsBalanced(sym: Symbol, i: nat)
    requires WellNamed(sym) && i <= |sym.children|
    ensures Balanced(Concat(GroupTexts(sym)[..i]))
    decreases sym, i
  {
    var groups := GroupTexts(sym);
    if i == 0 {
      assert groups[..0] == [];
      ParenFreeBalanced("");
    } else {
      GroupsBalanced(sym, i - 1);
      SymbolTextBalanced(sym.children[i - 1]);
      BalancedWrap(SymbolText(sym.children[i - 1]));
      assert groups[..i] == groups[..i - 1] + [groups[i - 1]];
      BalancedAppend(Concat(groups[..i - 1]), groups[i - 1]);
    }
  }

  /** The printed text of a well-named symbol determines the symbol. */
  lemma {:induction false} SymbolRoundTrip(sym: Symbol)
    requires WellNamed(sym)
    ensures ParseSymbol(SymbolText(sym)) == Some(sym)
    decreases sym, |sym.children| + 1
  {
    var groups := GroupTexts(sym);
    var c := Concat(groups);
    SymbolTextParts(sym);
    var s := sym.name + c;
    assert c == [] || c[0] == '(' by {
      if groups != [] {
        assert groups == [groups[0]] + groups[1..];
        ConcatCons(groups[0], groups[1..]);
      }
    }
    NameEndAt(sym.name, c);
    assert s[..|sym.name|] == sym.name && s[|sym.name|..] == c;
    ChildrenRoundTrip(sym, 0);
    assert groups[0..] == groups;
    assert sym.children[0..] == sym.children;
  }

  lemma {:induction false} ChildrenRoundTrip(sym: Symbol, i: nat)
    requires WellNamed(sym) && i <= |sym.children|
    ensures ParseChildren(Concat(GroupTexts(sym)[i..])) == Some(sym.children[i..])
    decreases sym, |sym.children| - i
  {
    var groups := GroupTexts(sym);
    if i == |sym.children| {
      assert groups[i..] == [];
    } else {
      var child := sym.children[i];
      var t := SymbolText(child);
      var rest := Concat(groups[i + 1..]);
      DropCons(groups, i);
      ConcatCons(groups[i], groups[i + 1..]);
      var s := "(" + t + ")" + rest;
      assert Concat(groups[i..]) == s;
      SymbolTextBalanced(child);
      MatchWrapped(t, rest);
      SymbolRoundTrip(child);
      ChildrenRoundTrip(sym, i + 1);
      DropCons(sym.children, i);
    }
  }
}
