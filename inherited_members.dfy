/**
 * TypeExtensions.GetInheritedInterfaceMembersImpl and its Members, Methods and Properties
 * wrappers: the members of a type united with those of its interfaces, recursively.
 */
module InheritedMembers {
  import opened Wrappers
  import opened Linq
  import opened Reflection

  /** GetMembers(bindingAttr) when flags are given, GetMembers() otherwise. */
  function CurrentMembers(t: TypeDesc, flags: Option<BindingFlags>): seq<Member>
  {
    if flags.Some? then GetMembers(t, flags.value) else GetMembers(t, DefaultLookup)
  }

  /**
   * The members of the interfaces t.interfaces[k..], each flattened recursively with the same
   * flags and concatenated in order (Select followed by SelectMany).
   */
  function InterfaceMembersFrom(t: TypeDesc, flags: Option<BindingFlags>, k: nat): (r: seq<Member>)
    decreases t, 0, |t.interfaces| - k
  {
    if k >= |t.interfaces| then []
    else Inherited(t.interfaces[k], flags) + InterfaceMembersFrom(t, flags, k + 1)
  }

  /** The members of t united (without duplicates, first occurrence first) with the flattened members of its interfaces. */
  function Inherited(t: TypeDesc, flags: Option<BindingFlags>): (r: seq<Member>)
    ensures NoDuplicates(r)
    ensures forall m :: m in r <==> m in CurrentMembers(t, flags) || m in InterfaceMembersFrom(t, flags, 0)
    decreases t, 1
  {
    Union(CurrentMembers(t, flags), InterfaceMembersFrom(t, flags, 0))
  }

  /** A member is declared by t under the flags, or by one of its interfaces, recursively. */
  predicate DeclaredIn(t: TypeDesc, flags: Option<BindingFlags>, m: Member)
    decreases t
  {
    m in CurrentMembers(t, flags) ||
    exists k :: 0 <= k < |t.interfaces| && DeclaredIn(t.interfaces[k], flags, m)
  }

  /**
   * GetInheritedInterfaceMembersImpl: ArgumentNullException for a null type, otherwise the
   * members declared by the type or, recursively, by its interfaces, each once.
   */
  function GetInheritedInterfaceMembersImpl(t: Option<TypeDesc>, flags: Option<BindingFlags>): (r: Result<seq<Member>>)
    ensures t.None? <==> r == Err(ArgumentNull("type"))
    ensures t.Some? ==> r.Ok? && NoDuplicates(r.value) && forall m :: m in r.value <==> DeclaredIn(t.value, flags, m)
  {
    if t.None? then Err(ArgumentNull("type"))
    else
      InheritedIsDeclared(t.value, flags);
      Ok(Inherited(t.value, flags))
  }

  /** GetInheritedInterfaceMembers(bindingAttr): the flags reach every level of the recursion. */
  function GetInheritedInterfaceMembersWith(t: Option<TypeDesc>, flags: BindingFlags): (r: Result<seq<Member>>)
    ensures t.None? <==> r == Err(ArgumentNull("type"))
    ensures t.Some? ==> r.Ok? && NoDuplicates(r.value) && forall m :: m in r.value <==> DeclaredIn(t.value, Some(flags), m)
  {
    GetInheritedInterfaceMembersImpl(t, Some(flags))
  }

  /** GetInheritedInterfaceMembers(): the same as passing the flags of GetMembers(). */
  function GetInheritedInterfaceMembers(t: Option<TypeDesc>): (r: Result<seq<Member>>)
    ensures r == GetInheritedInterfaceMembersWith(t, DefaultLookup)
  {
    if t.None? then GetInheritedInterfaceMembersImpl(t, None)
    else
      NoFlagsIsDefaultLookup(t.value);
      GetInheritedInterfaceMembersImpl(t, None)
  }

  /** GetInheritedInterfaceMethods, with or without flags: the methods among the members, in order. */
  function GetInheritedInterfaceMethods(t: Option<TypeDesc>, flags: Option<BindingFlags>): (r: Result<seq<Method>>)
    ensures t.None? <==> r == Err(ArgumentNull("type"))
    ensures t.Some? ==> r.Ok? && r.value == MethodsOf(Inherited(t.value, flags))
  {
    var members := GetInheritedInterfaceMembersImpl(t, flags);
    if members.Err? then Err(members.error) else Ok(MethodsOf(members.value))
  }

  /** GetInheritedInterfaceProperties, with or without flags: the properties among the members, in order. */
  function GetInheritedInterfaceProperties(t: Option<TypeDesc>, flags: Option<BindingFlags>): (r: Result<seq<Property>>)
    ensures t.None? <==> r == Err(ArgumentNull("type"))
    ensures t.Some? ==> r.Ok? && r.value == PropertiesOf(Inherited(t.value, flags))
  {
    var members := GetInheritedInterfaceMembersImpl(t, flags);
    if members.Err? then Err(members.error) else Ok(PropertiesOf(members.value))
  }

  /** The concatenated interface members are exactly those of some interface from index k on. */
  lemma {:induction false} InterfaceMembersFromContents(t: TypeDesc, flags: Option<BindingFlags>, k: nat, m: Member)
    ensures m in InterfaceMembersFrom(t, flags, k) <==>
            exists j :: k <= j < |t.interfaces| && m in Inherited(t.interfaces[j], flags)
    decreases |t.interfaces| - k
  {
    if k < |t.interfaces| {
      InterfaceMembersFromContents(t, flags, k + 1, m);
      if m in Inherited(t.interfaces[k], flags) {
        assert k <= k < |t.interfaces|;
      }
      if exists j :: k <= j < |t.interfaces| && m in Inherited(t.interfaces[j], flags) {
        var j :| k <= j < |t.interfaces| && m in Inherited(t.interfaces[j], flags);
        if j > k {
          assert k + 1 <= j < |t.interfaces|;
        }
      }
    }
  }

  /** The result holds exactly the members declared by the type or, recursively, by its interfaces. */
  lemma {:induction false} InheritedContents(t: TypeDesc, flags: Option<BindingFlags>, m: Member)
    ensures m in Inherited(t, flags) <==> DeclaredIn(t, flags, m)
    decreases t
  {
    InterfaceMembersFromContents(t, flags, 0, m);
    forall k | 0 <= k < |t.interfaces|
      ensures m in Inherited(t.interfaces[k], flags) <==> DeclaredIn(t.interfaces[k], flags, m)
    {
      InheritedContents(t.interfaces[k], flags, m);
    }
  }

  lemma InheritedIsDeclared(t: TypeDesc, flags: Option<BindingFlags>)
    ensures forall m :: m in Inherited(t, flags) <==> DeclaredIn(t, flags, m)
  {
    forall m ensures m in Inherited(t, flags) <==> DeclaredIn(t, flags, m) {
      InheritedContents(t, flags, m);
    }
  }

  /** Every member reported for one of the interfaces is in the result. */
  lemma InterfaceMembersIncluded(t: TypeDesc, flags: Option<BindingFlags>, k: nat, m: Member)
    requires k < |t.interfaces| && m in Inherited(t.interfaces[k], flags)
    ensures m in Inherited(t, flags)
  {
    InterfaceMembersFromContents(t, flags, 0, m);
  }

  /** Omitting the flags is the same as passing GetMembers() flags at every level of the recursion. */
  lemma {:induction false} NoFlagsIsDefaultLookup(t: TypeDesc)
    ensures Inherited(t, None) == Inherited(t, Some(DefaultLookup))
    decreases t
  {
    forall k | 0 <= k < |t.interfaces|
      ensures Inherited(t.interfaces[k], None) == Inherited(t.interfaces[k], Some(DefaultLookup))
    {
      NoFlagsIsDefaultLookup(t.interfaces[k]);
    }
    SameInterfaceMembers(t, 0);
  }

  lemma {:induction false} SameInterfaceMembers(t: TypeDesc, k: nat)
    requires forall j :: 0 <= j < |t.interfaces| ==> Inherited(t.interfaces[j], None) == Inherited(t.interfaces[j], Some(DefaultLookup))
    ensures InterfaceMembersFrom(t, None, k) == InterfaceMembersFrom(t, Some(DefaultLookup), k)
    decreases |t.interfaces| - k
  {
    if k < |t.interfaces| {
      SameInterfaceMembers(t, k + 1);
    }
  }

  /** The Methods variant returns exactly the declared methods, and the Properties variant the declared properties. */
  lemma MethodsAndPropertiesContents(t: TypeDesc, flags: Option<BindingFlags>, m: Member)
    ensures m.MethodMember? ==> (m in GetInheritedInterfaceMethods(Some(t), flags).value <==> DeclaredIn(t, flags, m))
    ensures m.PropertyMember? ==> (m in GetInheritedInterfaceProperties(Some(t), flags).value <==> DeclaredIn(t, flags, m))
  {
    InheritedContents(t, flags, m);
  }

  // ---- members are told apart by their declaring interface ----

  /** `void M()`, declared by the interface with the given token. */
  function VoidM(declaringType: ClrType): Member
  {
    MethodMember(declaringType, "M", false, true, [], [], VoidType, false)
  }

  const IA := TypeDesc(Named(20), true, true, false, [], [VoidM(Named(20))], [])
  const IB := TypeDesc(Named(21), true, true, false, [], [VoidM(Named(21))], [])
  /** `interface IC : IA, IB { }` */
  const IC := TypeDesc(Named(22), true, true, false, [], [], [IA, IB])
  /** `interface ID : IC { }`, whose GetInterfaces() lists IC, IA and IB. */
  const ID := TypeDesc(Named(23), true, true, false, [], [], [IC, IA, IB])

  /** IA and IB each report their own M. */
  lemma OwnMembers()
    ensures Inherited(IA, None) == [VoidM(Named(20))]
    ensures Inherited(IB, None) == [VoidM(Named(21))]
  {
    assert GetMembers(IA, DefaultLookup) == [VoidM(Named(20))];
    assert Distinct([VoidM(Named(20))] + []) == [VoidM(Named(20))];
    assert GetMembers(IB, DefaultLookup) == [VoidM(Named(21))];
    assert Distinct([VoidM(Named(21))] + []) == [VoidM(Named(21))];
  }

  /** IA.M and IB.M have the same signature but are two members, and both are returned. */
  lemma SameSignatureDistinctInterfaces()
    ensures GetInheritedInterfaceMembersImpl(Some(IC), None) == Ok([VoidM(Named(20)), VoidM(Named(21))])
  {
    var a, b := VoidM(Named(20)), VoidM(Named(21));
    OwnMembers();
    assert InterfaceMembersFrom(IC, None, 2) == [];
    assert InterfaceMembersFrom(IC, None, 1) == [b];
    assert InterfaceMembersFrom(IC, None, 0) == [a, b];
    assert GetMembers(IC, DefaultLookup) == [];
    var all := [] + [a, b];
    assert all == [a, b];
    assert all[..1] == [a];
    assert Distinct(all[..1]) == [a];
  }

  /** ID gathers IA.M and IB.M twice: through IC, then directly. */
  lemma MembersGatheredForID()
    ensures InterfaceMembersFrom(ID, None, 0) == [VoidM(Named(20)), VoidM(Named(21)), VoidM(Named(20)), VoidM(Named(21))]
  {
    var a, b := VoidM(Named(20)), VoidM(Named(21));
    OwnMembers();
    SameSignatureDistinctInterfaces();
    assert Inherited(IC, None) == [a, b];
    assert InterfaceMembersFrom(ID, None, 3) == [];
    assert InterfaceMembersFrom(ID, None, 2) == [b];
    assert InterfaceMembersFrom(ID, None, 1) == [a, b];
  }

  /** Distinct keeps the first copy of each of two repeated elements. */
  lemma DistinctRepeatedPair<T(!new)>(a: T, b: T)
    requires a != b
    ensures Distinct([a, b, a, b]) == [a, b]
  {
    var all := [a, b, a, b];
    assert all[..1] == [a];
    assert Distinct(all[..1]) == [a] by {
      assert all[..1][..0] == [];
    }
    assert all[..2] == [a, b];
    assert Distinct(all[..2]) == [a, b] by {
      assert all[..2][..1] == all[..1];
    }
    assert all[..3] == [a, b, a];
    assert Distinct(all[..3]) == [a, b] by {
      assert all[..3][..2] == all[..2];
    }
  }

  /** A member reached through several interfaces is the same MemberInfo, and Union keeps it once. */
  lemma RepeatedInterfaceMemberOnce()
    ensures GetInheritedInterfaceMembersImpl(Some(ID), None) == Ok([VoidM(Named(20)), VoidM(Named(21))])
  {
    var a, b := VoidM(Named(20)), VoidM(Named(21));
    MembersGatheredForID();
    assert GetMembers(ID, DefaultLookup) == [];
    assert [] + [a, b, a, b] == [a, b, a, b];
    DistinctRepeatedPair(a, b);
  }
}
