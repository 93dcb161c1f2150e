/** The example unions, the small functions over them, and the switch
    expressions of the example, given to the suppressor model as instances:
    one incomplete arm set and two complete ones. */
module Example {
  import opened CSharp
  import opened Suppressor

  datatype Side = Unionist(name: string) | Scab

  /** The example's own option union (its payload is called `Result`). */
  datatype Option<T> = Some(result: T) | None

  /** The example's implicit conversion from `T`. */
  function OptionFrom<T>(result: T): Option<T> {
    Some(result)
  }

  /** The conversion always gives `Some`, and keeps its argument. */
  lemma OptionFromKeeps<T>(a: T, b: T)
    ensures OptionFrom(a).Some? && OptionFrom(a).result == a
    ensures OptionFrom(a) == OptionFrom(b) ==> a == b
  {
  }

  /** A null, empty or blank name chooses `Scab`; any other name is a `Unionist` of that name. */
  function ChooseSide(name: Nullable<string>): Side {
    if IsNullOrWhiteSpace(name) then Scab else Unionist(name.value)
  }

  /** `ChooseSide` on a non-null name: a `Unionist` of that name exactly when
      the name has a character that is not white space. */
  lemma ChooseSideCases(name: Nullable<string>)
    ensures ChooseSide(name) == Scab <==> IsNullOrWhiteSpace(name)
    ensures name.Null? ==> ChooseSide(name) == Scab
    ensures name.NonNull? ==>
      (ChooseSide(name) == Unionist(name.value) <==>
       exists i :: 0 <= i < |name.value| && !IsWhiteSpace(name.value[i]))
  {
  }

  /** `ChooseSide() switch { IScab => true }`: from this call the missing
      `Unionist` arm is never reached. */
  function IsUnionistIncomplete(): bool {
    match ChooseSide(Null)
    case Scab => true
    case Unionist(_) => assert false; false
  }

  /** `ChooseSide("Eugene") switch { IUnionist => true, Side.Scab => false }`. */
  function IsUnionist(): bool {
    match ChooseSide(NonNull("Eugene"))
    case Unionist(_) => true
    case Scab => false
  }

  lemma ExampleSwitchesEvaluate()
    ensures IsUnionist()
    ensures IsUnionistIncomplete()
    ensures ChooseSide(NonNull("Eugene")) == Unionist("Eugene")
  {
    NotBlank("Eugene", 0);
  }

  const IntMin: int32 := -0x8000_0000

  /** `second switch { 0 => new None(), _ => first / second }` over C# `int`;
      `int.MinValue / -1` overflows and throws, which is outside the model. */
  function Divide(first: int32, second: int32): Option<int32>
    requires !(first == IntMin && second == -1)
  {
    if second == 0 then None
    else
      TruncDivInRange(first as int, second as int);
      OptionFrom(TruncDiv(first as int, second as int) as int32)
  }

  /** `Divide(first, second) switch { ISome<int> => true, Option<int>.None => false }`. */
  function CanDivide(first: int32, second: int32): bool
    requires !(first == IntMin && second == -1)
  {
    match Divide(first, second)
    case Some(_) => true
    case None => false
  }

  /** `Divide` by zero is `None`; otherwise it is the quotient truncated toward
      zero: the remainder is smaller than the divisor and has the dividend's sign. */
  lemma DivideQuotient(first: int32, second: int32)
    requires !(first == IntMin && second == -1)
    ensures Divide(first, second).None? <==> second == 0
    ensures CanDivide(first, second) <==> second != 0
    ensures Divide(first, second).Some? ==>
      var q := Divide(first, second).result as int;
      var r := first as int - q * second as int;
      Abs(r) < Abs(second as int) && (r == 0 || (r < 0) == (first < 0))
  {
    if second != 0 {
      TruncDivQuotient(first as int, second as int);
    }
  }

  // ---------------------------------------------------------------------
  // The example's switch expressions as instances of the suppressor model

  const IUnionizeNowType: TypeId := 1
  const SideType: TypeId := 2
  const UnionistType: TypeId := 3
  const ScabType: TypeId := 4
  const IUnionistType: TypeId := 5
  const IScabType: TypeId := 6
  const OptionIntType: TypeId := 7
  const SomeIntType: TypeId := 8
  const NoneIntType: TypeId := 9
  const ISomeIntType: TypeId := 10
  const INoneType: TypeId := 11

  /** The types of the example: each union implements the `IUnionizeNow`
      marker, and each member implements the marker and its own generated
      interface. */
  const Types: Compilation := Compilation(
    map[
      IUnionizeNowType := TypeSymbol("IUnionizeNow", NonNull("UnionizeNow"), {}),
      SideType := TypeSymbol("Side", NonNull("UnionizeNow.Example"), {IUnionizeNowType}),
      UnionistType := TypeSymbol("Unionist", NonNull("UnionizeNow.Example"), {IUnionizeNowType, IUnionistType}),
      ScabType := TypeSymbol("Scab", NonNull("UnionizeNow.Example"), {IUnionizeNowType, IScabType}),
      IUnionistType := TypeSymbol("IUnionist", NonNull("UnionizeNow.Example"), {}),
      IScabType := TypeSymbol("IScab", NonNull("UnionizeNow.Example"), {}),
      OptionIntType := TypeSymbol("Option", NonNull("UnionizeNow.Example"), {IUnionizeNowType}),
      SomeIntType := TypeSymbol("Some", NonNull("UnionizeNow.Example"), {IUnionizeNowType, ISomeIntType}),
      NoneIntType := TypeSymbol("None", NonNull("UnionizeNow.Example"), {IUnionizeNowType, INoneType}),
      ISomeIntType := TypeSymbol("ISome", NonNull("UnionizeNow.Example"), {}),
      INoneType := TypeSymbol("INone", NonNull("UnionizeNow.Example"), {})
    ],
    map[SideType := [UnionistType, ScabType], OptionIntType := [SomeIntType, NoneIntType]])

  /** Syntax nodes of the example's switch expressions: the governing
      expressions and the arm patterns' type names. */
  const ChooseSideCall: NodeId := 10
  const IScabName: NodeId := 11
  const ChooseEugeneCall: NodeId := 20
  const IUnionistName: NodeId := 21
  const SideScabName: NodeId := 22
  const DivideCall: NodeId := 30
  const ISomeIntName: NodeId := 31
  const OptionNoneName: NodeId := 32
  const SideUnionistName: NodeId := 40

  const Model: SemanticModel := SemanticModel(map[
    ChooseSideCall := SideType, IScabName := IScabType,
    ChooseEugeneCall := SideType, IUnionistName := IUnionistType, SideScabName := ScabType,
    DivideCall := OptionIntType, ISomeIntName := ISomeIntType, OptionNoneName := NoneIntType,
    SideUnionistName := UnionistType])

  const Context: SuppressionContext := SuppressionContext(Types, map[0 := Model], [])

  /** A bare type name in an arm is a constant pattern whose expression denotes the type. */
  function NameArm(name: NodeId): Arm {
    Arm(ConstantPattern(name), false)
  }

  /** The switch of `IsUnionistIncomplete`. */
  const IncompleteSwitch := SwitchExpression(0, ChooseSideCall, [NameArm(IScabName)])

  /** The switch of `IsUnionist`: a member interface and an exact member type. */
  const UnionistSwitch := SwitchExpression(0, ChooseEugeneCall, [NameArm(IUnionistName), NameArm(SideScabName)])

  /** The switch of `CanDivide`. */
  const CanDivideSwitch := SwitchExpression(0, DivideCall, [NameArm(ISomeIntName), NameArm(OptionNoneName)])

  /** What the example's symbols and semantic model say, entry by entry. */
  lemma TypesAndModelFacts()
    ensures AllInterfaces(Types, SideType) == {IUnionizeNowType}
    ensures AllInterfaces(Types, OptionIntType) == {IUnionizeNowType}
    ensures AllInterfaces(Types, UnionistType) == {IUnionizeNowType, IUnionistType}
    ensures AllInterfaces(Types, ScabType) == {IUnionizeNowType, IScabType}
    ensures AllInterfaces(Types, SomeIntType) == {IUnionizeNowType, ISomeIntType}
    ensures AllInterfaces(Types, NoneIntType) == {IUnionizeNowType, INoneType}
    ensures IsUnionizeNowInterface(Types, IUnionizeNowType)
    ensures UnionMembers(Types, SideType) == [UnionistType, ScabType]
    ensures UnionMembers(Types, OptionIntType) == [SomeIntType, NoneIntType]
    ensures TypeOf(Model, ChooseSideCall) == NonNull(SideType)
    ensures TypeOf(Model, ChooseEugeneCall) == NonNull(SideType)
    ensures TypeOf(Model, DivideCall) == NonNull(OptionIntType)
    ensures ArmType(Model, NameArm(IScabName)) == NonNull(IScabType)
    ensures ArmType(Model, NameArm(IUnionistName)) == NonNull(IUnionistType)
    ensures ArmType(Model, NameArm(SideScabName)) == NonNull(ScabType)
    ensures ArmType(Model, NameArm(ISomeIntName)) == NonNull(ISomeIntType)
    ensures ArmType(Model, NameArm(OptionNoneName)) == NonNull(NoneIntType)
    ensures ArmType(Model, Arm(DeclarationPattern(SideUnionistName), true)) == NonNull(UnionistType)
  {
  }

  /** The covered set of a pair of arms that both resolve. */
  lemma CoveredPair(a: Arm, b: Arm)
    requires ArmType(Model, a).NonNull? && ArmType(Model, b).NonNull?
    ensures CoveredTypes(Model, [a, b]) == {ArmType(Model, a).value, ArmType(Model, b).value}
  {
    CoveredTypesSnoc(Model, [a], b);
    CoveredTypesSnoc(Model, [], a);
    assert [] + [a] == [a];
    assert [a] + [b] == [a, b];
  }

  lemma SideIsUnion()
    ensures IsUnion(Types, SideType) && IsUnion(Types, OptionIntType)
    ensures ResolveUnion(IncompleteSwitch, Context) == NonNull((Model, SideType))
    ensures ResolveUnion(UnionistSwitch, Context) == NonNull((Model, SideType))
    ensures ResolveUnion(CanDivideSwitch, Context) == NonNull((Model, OptionIntType))
  {
    TypesAndModelFacts();
    assert IUnionizeNowType in AllInterfaces(Types, SideType);
    assert IUnionizeNowType in AllInterfaces(Types, OptionIntType);
  }

  /** The arms `{IScab}` leave `Unionist` uncovered: no suppression. */
  lemma IncompleteSwitchNotSuppressed()
    ensures !ShouldSuppress(IncompleteSwitch, Context)
  {
    SideIsUnion();
    TypesAndModelFacts();
    CoveredTypesSnoc(Model, [], NameArm(IScabName));
    assert [] + [NameArm(IScabName)] == IncompleteSwitch.arms;
    assert CoveredTypes(Model, IncompleteSwitch.arms) == {IScabType};
    assert !Covers(Types, {IScabType}, UnionistType);
  }

  /** The arms `{IUnionist, Side.Scab}` cover `Side`. */
  lemma UnionistSwitchSuppressed()
    ensures ShouldSuppress(UnionistSwitch, Context)
  {
    SideIsUnion();
    TypesAndModelFacts();
    CoveredPair(NameArm(IUnionistName), NameArm(SideScabName));
    var covered := CoveredTypes(Model, UnionistSwitch.arms);
    assert covered == {IUnionistType, ScabType};
    assert Covers(Types, covered, UnionistType) by {
      assert IUnionistType in covered && IUnionistType in AllInterfaces(Types, UnionistType);
    }
    assert Covers(Types, covered, ScabType);
  }

  /** The arms `{ISome<int>, Option<int>.None}` cover `Option<int>`. */
  lemma CanDivideSwitchSuppressed()
    ensures ShouldSuppress(CanDivideSwitch, Context)
  {
    SideIsUnion();
    TypesAndModelFacts();
    CoveredPair(NameArm(ISomeIntName), NameArm(OptionNoneName));
    var covered := CoveredTypes(Model, CanDivideSwitch.arms);
    assert covered == {ISomeIntType, NoneIntType};
    assert Covers(Types, covered, SomeIntType) by {
      assert ISomeIntType in covered && ISomeIntType in AllInterfaces(Types, SomeIntType);
    }
    assert Covers(Types, covered, NoneIntType);
  }

  /** `ChooseSide("Eugene") switch { Side.Unionist u when u.Name == "" => true, Side.Scab => false }`:
      the suppressor hides the warning, yet a `Unionist` of another name
      reaches no arm, and the corrected decision keeps the warning. */
  const GuardedSwitch := SwitchExpression(0, ChooseEugeneCall,
    [Arm(DeclarationPattern(SideUnionistName), true), NameArm(SideScabName)])

  lemma GuardedSwitchCounterexample()
    ensures ShouldSuppress(GuardedSwitch, Context)
    ensures !exists a :: a in GuardedSwitch.arms && CertainlyMatches(Types, Model, a, UnionistType)
    ensures !ShouldSuppressUnguarded(GuardedSwitch, Context)
  {
    SideIsUnion();
    TypesAndModelFacts();
    assert ResolveUnion(GuardedSwitch, Context) == NonNull((Model, SideType));
    var guarded := Arm(DeclarationPattern(SideUnionistName), true);
    CoveredPair(guarded, NameArm(SideScabName));
    var covered := CoveredTypes(Model, GuardedSwitch.arms);
    assert covered == {UnionistType, ScabType};
    assert Covers(Types, covered, UnionistType);
    assert Covers(Types, covered, ScabType);
    forall a | a in GuardedSwitch.arms ensures !CertainlyMatches(Types, Model, a, UnionistType) {
      assert a == guarded || a == NameArm(SideScabName);
    }
    ShouldSuppressUnguardedSound(GuardedSwitch, Context);
    assert Context.compilation == Types;
    assert UnionistType in UnionMembers(Types, SideType);
  }

  /** The compiler's CS8509 at the guarded switch. */
  const GuardedDiagnostic := Diagnostic("CS8509", Location(NonNull(0), SwitchNode(GuardedSwitch)))

  /** The shipped loop suppresses the warning at the guarded switch; the
      corrected filter lets it through. */
  lemma GuardedDiagnosticSuppressed()
    ensures CastSucceeds(GuardedDiagnostic)
    ensures Qualifies(GuardedDiagnostic, Context)
    ensures !QualifiesUnguarded(GuardedDiagnostic, Context)
  {
    GuardedSwitchCounterexample();
  }
}
