/** The parsed configuration as the rule checks see it: blocks with a type,
    labels, named attributes and nested blocks, and attributes whose values
    are known literals or not statically known. A missing block is the
    sentinel NilBlock and a missing attribute is None, so that chained lookups
    never fail and simply end in "absent". */
module Hcl {

  datatype Option<+T> = None | Some(value: T)

  /** Where a block or an attribute sits in the configuration files. */
  datatype Range = Range(filename: string, startLine: nat, endLine: nat)

  datatype Literal =
    | LString(s: string)
    | LBool(b: bool)
    | LNumber(n: int)
    | LList(items: seq<Literal>)

  /** The three-valued view of an attribute: a known literal, a value that
      depends on information only available at apply time, or no attribute. */
  datatype Value = Known(literal: Literal) | Unknown | Absent {
    predicate IsKnown() { Known? }
  }

  /** A declared attribute always resolves to Known or Unknown; Absent only
      arises from looking up a name that is not declared. */
  type ResolvedValue = v: Value | !v.Absent? witness Unknown

  datatype Attribute = Attribute(name: string, value: ResolvedValue, range: Range)

  /** The value behind a possibly-nil attribute. */
  function ValueOf(a: Option<Attribute>): (v: Value)
    ensures v.Absent? <==> a.None?
  {
    match a
    case None => Absent
    case Some(attr) => attr.value
  }

  /** True only for a known string literal; false for Unknown and Absent. */
  predicate IsString(a: Option<Attribute>)
    ensures IsString(a) ==> a.Some? && a.value.value.IsKnown()
  {
    ValueOf(a).Known? && ValueOf(a).literal.LString?
  }

  /** True only for the known literal `true`; false for Unknown and Absent. */
  predicate IsTrue(a: Option<Attribute>)
    ensures IsTrue(a) ==> a.Some? && a.value.value.IsKnown() && !IsString(a)
  {
    ValueOf(a) == Known(LBool(true))
  }

  /** The parts of a block that its human-readable full name is made of. */
  datatype BlockName = BlockName(typ: string, labels: seq<string>)

  datatype Block =
    | NilBlock
    | Block(typ: string, labels: seq<string>, attributes: map<string, Attribute>,
            children: seq<Block>, range: Range)
  {
    predicate IsNil() { NilBlock? }

    function Name(): BlockName {
      match this
      case NilBlock => BlockName("", [])
      case Block(t, ls, _, _, _) => BlockName(t, ls)
    }

    function SourceRange(): Range {
      match this
      case NilBlock => Range("", 0, 0)
      case Block(_, _, _, _, r) => r
    }

    /** The first child block of the given type, or NilBlock. */
    function GetBlock(name: string): Block {
      FirstOfType(Children(), name)
    }

    /** All child blocks of the given type, in order; never absent. */
    function GetBlocks(name: string): seq<Block> {
      OfType(Children(), name)
    }

    /** The attribute with the given name, or None (the nil attribute). */
    function GetAttribute(name: string): Option<Attribute> {
      match this
      case NilBlock => None
      case Block(_, _, attrs, _, _) => if name in attrs then Some(attrs[name]) else None
    }

    function Children(): seq<Block> {
      match this
      case NilBlock => []
      case Block(_, _, _, cs, _) => cs
    }
  }

  predicate IsOfType(b: Block, name: string) {
    b.Block? && b.typ == name
  }

  function FirstOfType(bs: seq<Block>, name: string): Block {
    if bs == [] then NilBlock
    else if IsOfType(bs[0], name) then bs[0]
    else FirstOfType(bs[1..], name)
  }

  function OfType(bs: seq<Block>, name: string): seq<Block> {
    if bs == [] then []
    else if IsOfType(bs[0], name) then [bs[0]] + OfType(bs[1..], name)
    else OfType(bs[1..], name)
  }

  /** GetBlock finds the first child of the given type, and is nil exactly
      when there is none. */
  lemma {:induction false} GetBlockFindsFirst(b: Block, name: string)
    ensures var r := b.GetBlock(name);
      (r.IsNil() <==> forall k :: 0 <= k < |b.Children()| ==> !IsOfType(b.Children()[k], name)) &&
      (!r.IsNil() ==>
        exists k :: 0 <= k < |b.Children()| && b.Children()[k] == r && IsOfType(r, name) &&
          forall j :: 0 <= j < k ==> !IsOfType(b.Children()[j], name))
  {
    FirstOfTypeIsFirst(b.Children(), name);
  }

  lemma {:induction false} FirstOfTypeIsFirst(bs: seq<Block>, name: string)
    ensures var r := FirstOfType(bs, name);
      (r.IsNil() <==> forall k :: 0 <= k < |bs| ==> !IsOfType(bs[k], name)) &&
      (!r.IsNil() ==>
        exists k :: 0 <= k < |bs| && bs[k] == r && IsOfType(r, name) &&
          forall j :: 0 <= j < k ==> !IsOfType(bs[j], name))
  {
    if bs != [] && !IsOfType(bs[0], name) {
      FirstOfTypeIsFirst(bs[1..], name);
      var r := FirstOfType(bs, name);
      if !r.IsNil() {
        var k :| 0 <= k < |bs[1..]| && bs[1..][k] == r && IsOfType(r, name) &&
          forall j :: 0 <= j < k ==> !IsOfType(bs[1..][j], name);
        assert bs[k + 1] == r;
        assert forall j :: 0 <= j < k + 1 ==> !IsOfType(bs[j], name) by {
          forall j | 0 <= j < k + 1 ensures !IsOfType(bs[j], name) {
            if j > 0 { assert bs[j] == bs[1..][j - 1]; }
          }
        }
      }
    }
  }

  /** GetBlocks keeps exactly the children of the given type, each as often
      as it occurs among the children. */
  lemma {:induction false} GetBlocksFilters(b: Block, name: string)
    ensures var r := b.GetBlocks(name);
      |r| <= |b.Children()| &&
      (forall x :: x in r <==> x in b.Children() && IsOfType(x, name)) &&
      (forall x :: multiset(r)[x] == if IsOfType(x, name) then multiset(b.Children())[x] else 0)
  {
    OfTypeFilters(b.Children(), name);
  }

  lemma {:induction false} OfTypeFilters(bs: seq<Block>, name: string)
    ensures var r := OfType(bs, name);
      |r| <= |bs| &&
      (forall x :: x in r <==> x in bs && IsOfType(x, name)) &&
      (forall x :: multiset(r)[x] == if IsOfType(x, name) then multiset(bs)[x] else 0)
  {
    if bs != [] {
      OfTypeFilters(bs[1..], name);
      assert bs == [bs[0]] + bs[1..];
      assert multiset(bs) == multiset([bs[0]]) + multiset(bs[1..]);
    }
  }

  /** A single block is kept exactly when it has the given type. */
  lemma OfTypeSingleton(x: Block, name: string)
    ensures OfType([x], name) == if IsOfType(x, name) then [x] else []
  {
    assert [x][1..] == [];
  }

  /** GetBlocks keeps the children's order: filtering two runs of blocks gives
      the first run's matches followed by the second's. With OfTypeSingleton
      this fixes the result for every sequence of children. */
  lemma {:induction false} OfTypeAppend(a: seq<Block>, b: seq<Block>, name: string)
    ensures OfType(a + b, name) == OfType(a, name) + OfType(b, name)
  {
    if a == [] {
      assert a + b == b;
    } else {
      assert (a + b)[0] == a[0] && (a + b)[1..] == a[1..] + b;
      OfTypeAppend(a[1..], b, name);
    }
  }

  /** Null-object safety: every lookup below a missing block is missing too. */
  lemma NilLookups(name: string)
    ensures NilBlock.GetBlock(name).IsNil()
    ensures NilBlock.GetBlocks(name) == []
    ensures NilBlock.GetAttribute(name).None?
  {
  }

  /** Three-valued consistency: Unknown and Absent satisfy no typed predicate. */
  lemma UndeterminedSatisfiesNothing(a: Option<Attribute>)
    requires !ValueOf(a).IsKnown()
    ensures !IsString(a) && !IsTrue(a)
  {
  }
}
