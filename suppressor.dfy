/** The diagnostic suppressor that withholds the compiler's "switch expression
    does not handle all possible inputs" warning (CS8509) for a switch over a
    union whose arms, through exact member types and marker interfaces,
    account for every member of the union.

    The compiler's syntax trees and semantic models are modelled by what the
    suppressor reads of them: a switch expression is its governing expression
    and its arms, each arm's pattern names the syntax node whose type the
    semantic model resolves, and a type symbol is its name, its containing
    namespace and the identities of all the interfaces it implements. */
module Suppressor {
  import opened CSharp

  /** Identity of a type symbol (symbol equality is equality of identities). */
  type TypeId = nat
  /** Identity of a syntax node (a type syntax or an expression). */
  type NodeId = nat
  /** Identity of a syntax tree. */
  type TreeId = nat

  /** What the suppressor reads of a type symbol. */
  datatype TypeSymbol = TypeSymbol(
    name: string,
    containingNamespace: Nullable<string>,  // the namespace's display string, if there is a namespace
    allInterfaces: set<TypeId>)

  /** The symbols of a compilation, and the union generator's query for the
      members of a union type. */
  datatype Compilation = Compilation(
    symbols: map<TypeId, TypeSymbol>,
    unionMembers: map<TypeId, seq<TypeId>>)

  /** A semantic model: the type it resolves for a syntax node, if any. */
  datatype SemanticModel = SemanticModel(typeOf: map<NodeId, TypeId>)

  /** The pattern of one switch arm. The three pattern forms the suppressor
      understands each point at the syntax whose type it asks for; every other
      form (discard, `var`, recursive, relational, `not`/`and`/`or`, ...) is
      `OtherPattern`. */
  datatype Pattern =
    | DeclarationPattern(typeSyntax: NodeId)
    | ConstantPattern(expression: NodeId)
    | TypePattern(typeSyntax: NodeId)
    | OtherPattern

  /** A switch arm: its pattern, and whether it carries a `when` clause
      (which the suppressor does not look at). */
  datatype Arm = Arm(pattern: Pattern, hasWhenClause: bool)

  datatype SwitchExpression = SwitchExpression(
    syntaxTree: TreeId,
    governingExpression: NodeId,
    arms: seq<Arm>)

  /** The node at a diagnostic's source span: the cast at the start of the
      analysis expects a switch expression. */
  datatype SyntaxNode = SwitchNode(switchExpression: SwitchExpression) | OtherNode

  datatype Location = Location(sourceTree: Nullable<TreeId>, nodeAtSpan: SyntaxNode)

  datatype Diagnostic = Diagnostic(id: string, location: Location)

  datatype SuppressionDescriptor = SuppressionDescriptor(
    id: string,
    suppressedDiagnosticId: string,
    justification: string)

  datatype Suppression = Suppression(descriptor: SuppressionDescriptor, suppressedDiagnostic: Diagnostic)

  /** Everything one invocation of the suppressor can see. */
  datatype SuppressionContext = SuppressionContext(
    compilation: Compilation,
    semanticModels: map<TreeId, SemanticModel>,
    reportedDiagnostics: seq<Diagnostic>)

  /** The one suppression this suppressor supports. */
  const Rule: SuppressionDescriptor :=
    SuppressionDescriptor("UNION0001", "CS8509", "For solidarity with the union members.")

  const SupportedSuppressions: seq<SuppressionDescriptor> := [Rule]

  // ---------------------------------------------------------------------
  // Queries on symbols and the semantic model

  /** `GetTypeInfo(node).Type`, which may be null. */
  function TypeOf(sm: SemanticModel, node: NodeId): Nullable<TypeId> {
    if node in sm.typeOf then NonNull(sm.typeOf[node]) else Null
  }

  function AllInterfaces(c: Compilation, t: TypeId): set<TypeId> {
    if t in c.symbols then c.symbols[t].allInterfaces else {}
  }

  /** The marker interface `UnionizeNow.IUnionizeNow`, recognised by name and namespace. */
  predicate IsUnionizeNowInterface(c: Compilation, t: TypeId) {
    t in c.symbols
    && c.symbols[t].name == "IUnionizeNow"
    && c.symbols[t].containingNamespace == NonNull("UnionizeNow")
  }

  /** A type takes part in the system when it implements the marker or is the marker. */
  predicate IsUnion(c: Compilation, t: TypeId) {
    (exists i :: i in AllInterfaces(c, t) && IsUnionizeNowInterface(c, i))
    || IsUnionizeNowInterface(c, t)
  }

  /** The generator's member list of a union (empty when it knows none). */
  function UnionMembers(c: Compilation, t: TypeId): seq<TypeId> {
    if t in c.unionMembers then c.unionMembers[t] else []
  }

  // ---------------------------------------------------------------------
  // The covered-type set and the coverage test

  /** The type an arm contributes to the covered set, if any. */
  function ArmType(sm: SemanticModel, arm: Arm): Nullable<TypeId> {
    match arm.pattern
    case DeclarationPattern(typeSyntax) => TypeOf(sm, typeSyntax)
    case ConstantPattern(expression) => TypeOf(sm, expression)
    case TypePattern(typeSyntax) => TypeOf(sm, typeSyntax)
    case OtherPattern => Null
  }

  /** The covered-type set of a list of arms: the resolved types of its
      declaration, constant and type patterns. */
  function CoveredTypes(sm: SemanticModel, arms: seq<Arm>): set<TypeId> {
    set a | a in arms && ArmType(sm, a).NonNull? :: ArmType(sm, a).value
  }

  /** A member is covered when it is named exactly or implements a named type. */
  predicate Covers(c: Compilation, covered: set<TypeId>, m: TypeId) {
    m in covered || exists t :: t in covered && t in AllInterfaces(c, m)
  }

  predicate CoversAll(c: Compilation, members: seq<TypeId>, covered: set<TypeId>) {
    forall m | m in members :: Covers(c, covered, m)
  }

  /** The gates before the coverage test: a semantic model for the switch's
      tree, a resolved governing type that is a union, and a non-empty
      member list. Yields the semantic model and the union type. */
  function ResolveUnion(sw: SwitchExpression, ctx: SuppressionContext): Nullable<(SemanticModel, TypeId)> {
    if sw.syntaxTree !in ctx.semanticModels then Null
    else
      var sm := ctx.semanticModels[sw.syntaxTree];
      match TypeOf(sm, sw.governingExpression)
      case Null => Null
      case NonNull(u) =>
        if IsUnion(ctx.compilation, u) && |UnionMembers(ctx.compilation, u)| > 0
        then NonNull((sm, u)) else Null
  }

  /** The decision for one switch expression. */
  predicate ShouldSuppress(sw: SwitchExpression, ctx: SuppressionContext) {
    match ResolveUnion(sw, ctx)
    case Null => false
    case NonNull((sm, u)) =>
      CoversAll(ctx.compilation, UnionMembers(ctx.compilation, u), CoveredTypes(sm, sw.arms))
  }

  // ---------------------------------------------------------------------
  // The two loops of the suppressor

  /** Walks the arms and adds the type of every declaration, constant and
      type pattern that resolves. */
  method GetCoveredTypes(sw: SwitchExpression, sm: SemanticModel) returns (coveredTypes: set<TypeId>)
    ensures coveredTypes == CoveredTypes(sm, sw.arms)
  {
    coveredTypes := {};
    for i := 0 to |sw.arms|
      invariant coveredTypes == CoveredTypes(sm, sw.arms[..i])
    {
      CoveredTypesSnoc(sm, sw.arms[..i], sw.arms[i]);
      assert sw.arms[..i + 1] == sw.arms[..i] + [sw.arms[i]];
      match sw.arms[i].pattern {
        case DeclarationPattern(typeSyntax) =>
          var declarationType := TypeOf(sm, typeSyntax);
          if declarationType.NonNull? {
            coveredTypes := coveredTypes + {declarationType.value};
          }
        case ConstantPattern(expression) =>
          var constantType := TypeOf(sm, expression);
          if constantType.NonNull? {
            coveredTypes := coveredTypes + {constantType.value};
          }
        case TypePattern(typeSyntax) =>
          var typeType := TypeOf(sm, typeSyntax);
          if typeType.NonNull? {
            coveredTypes := coveredTypes + {typeType.value};
          }
        case OtherPattern =>
      }
    }
    assert sw.arms[..|sw.arms|] == sw.arms;
  }

  /** The cast of the found node succeeds: whenever the diagnostic has a
      source tree, the node at its span is a switch expression of that tree. */
  predicate CastSucceeds(d: Diagnostic) {
    d.location.sourceTree.NonNull? ==>
      && d.location.nodeAtSpan.SwitchNode?
      && d.location.nodeAtSpan.switchExpression.syntaxTree == d.location.sourceTree.value
  }

  /** The switch expression a diagnostic points at, or null without a source tree. */
  function GetSwitch(d: Diagnostic): Nullable<SwitchExpression>
    requires CastSucceeds(d)
  {
    match d.location.sourceTree
    case Null => Null
    case NonNull(_) => NonNull(d.location.nodeAtSpan.switchExpression)
  }

  /** A diagnostic qualifies when it points at a switch expression that the
      decision suppresses. */
  predicate Qualifies(d: Diagnostic, ctx: SuppressionContext)
    requires CastSucceeds(d)
  {
    match GetSwitch(d)
    case Null => false
    case NonNull(sw) => ShouldSuppress(sw, ctx)
  }

  /** The reported diagnostics that qualify, in their order. */
  function Qualifying(ds: seq<Diagnostic>, ctx: SuppressionContext): seq<Diagnostic>
    requires forall d | d in ds :: CastSucceeds(d)
  {
    if ds == [] then []
    else (if Qualifies(ds[0], ctx) then [ds[0]] else []) + Qualifying(ds[1..], ctx)
  }

  /** Reports one suppression (with `Rule`) for each reported diagnostic that
      qualifies, in the order the diagnostics come. */
  method ReportSuppressions(ctx: SuppressionContext) returns (suppressions: seq<Suppression>)
    requires forall d | d in ctx.reportedDiagnostics :: CastSucceeds(d)
    ensures |suppressions| == |Qualifying(ctx.reportedDiagnostics, ctx)|
    ensures forall k | 0 <= k < |suppressions| ::
      suppressions[k] == Suppression(Rule, Qualifying(ctx.reportedDiagnostics, ctx)[k])
  {
    var ds := ctx.reportedDiagnostics;
    suppressions := [];
    for i := 0 to |ds|
      invariant |suppressions| == |Qualifying(ds[..i], ctx)|
      invariant forall k | 0 <= k < |suppressions| ::
        suppressions[k] == Suppression(Rule, Qualifying(ds[..i], ctx)[k])
    {
      var diagnostic := ds[i];
      QualifyingSnoc(ds[..i], diagnostic, ctx);
      assert ds[..i + 1] == ds[..i] + [diagnostic];
      var s := GetSwitch(diagnostic);
      if s.NonNull? && ShouldSuppress(s.value, ctx) {
        suppressions := suppressions + [Suppression(Rule, diagnostic)];
      }
    }
    assert ds[..|ds|] == ds;
  }

  // ---------------------------------------------------------------------
  // Lemmas about the covered-type set

  /** Membership in the covered set, arm by arm. */
  lemma CoveredTypesMembership(sm: SemanticModel, arms: seq<Arm>, t: TypeId)
    ensures t in CoveredTypes(sm, arms) <==> exists a :: a in arms && ArmType(sm, a) == NonNull(t)
  {
    if exists a :: a in arms && ArmType(sm, a) == NonNull(t) {
      var a :| a in arms && ArmType(sm, a) == NonNull(t);
      assert ArmType(sm, a).value == t;
    }
  }

  /** The covered set of concatenated arm lists is the union of their covered sets. */
  lemma CoveredTypesAppend(sm: SemanticModel, arms: seq<Arm>, more: seq<Arm>)
    ensures CoveredTypes(sm, arms + more) == CoveredTypes(sm, arms) + CoveredTypes(sm, more)
  {
    forall t ensures t in CoveredTypes(sm, arms + more) <==> t in CoveredTypes(sm, arms) + CoveredTypes(sm, more) {
      CoveredTypesMembership(sm, arms + more, t);
      CoveredTypesMembership(sm, arms, t);
      CoveredTypesMembership(sm, more, t);
      if exists a :: a in arms + more && ArmType(sm, a) == NonNull(t) {
        var a :| a in arms + more && ArmType(sm, a) == NonNull(t);
        assert a in arms || a in more;
      }
    }
  }

  lemma CoveredTypesSnoc(sm: SemanticModel, arms: seq<Arm>, arm: Arm)
    ensures CoveredTypes(sm, arms + [arm]) ==
      CoveredTypes(sm, arms) + (if ArmType(sm, arm).NonNull? then {ArmType(sm, arm).value} else {})
  {
    CoveredTypesAppend(sm, arms, [arm]);
    forall t ensures t in CoveredTypes(sm, [arm]) <==> ArmType(sm, arm) == NonNull(t) {
      CoveredTypesMembership(sm, [arm], t);
    }
  }

  /** An arm of any other pattern form, or whose type does not resolve, adds nothing. */
  lemma UnresolvedArmAddsNothing(sm: SemanticModel, arms: seq<Arm>, arm: Arm)
    requires ArmType(sm, arm).Null?
    ensures CoveredTypes(sm, arms + [arm]) == CoveredTypes(sm, arms)
  {
    CoveredTypesSnoc(sm, arms, arm);
  }

  /** The covered set depends only on which arms occur: neither their order
      nor repetitions matter. */
  lemma CoveredTypesOrderFree(sm: SemanticModel, arms: seq<Arm>, others: seq<Arm>)
    requires forall a :: a in arms <==> a in others
    ensures CoveredTypes(sm, arms) == CoveredTypes(sm, others)
  {
  }

  // ---------------------------------------------------------------------
  // Lemmas about the decision

  /** A suppression needs a semantic model, a resolved governing type that is
      a union, and a non-empty member list; when those hold, it is decided by
      the coverage test alone. */
  lemma ShouldSuppressGates(sw: SwitchExpression, ctx: SuppressionContext)
    ensures ShouldSuppress(sw, ctx) ==>
      && sw.syntaxTree in ctx.semanticModels
      && TypeOf(ctx.semanticModels[sw.syntaxTree], sw.governingExpression).NonNull?
      && IsUnion(ctx.compilation, TypeOf(ctx.semanticModels[sw.syntaxTree], sw.governingExpression).value)
      && |UnionMembers(ctx.compilation, TypeOf(ctx.semanticModels[sw.syntaxTree], sw.governingExpression).value)| > 0
    ensures ResolveUnion(sw, ctx).NonNull? ==>
      var sm := ctx.semanticModels[sw.syntaxTree];
      var u := TypeOf(sm, sw.governingExpression).value;
      ResolveUnion(sw, ctx).value == (sm, u)
      && (ShouldSuppress(sw, ctx) <==> CoversAll(ctx.compilation, UnionMembers(ctx.compilation, u), CoveredTypes(sm, sw.arms)))
  {
  }

  /** A type the generator knows no members of is never suppressed for. */
  lemma NoMembersNoSuppression(sw: SwitchExpression, ctx: SuppressionContext)
    requires sw.syntaxTree in ctx.semanticModels
    requires var t := TypeOf(ctx.semanticModels[sw.syntaxTree], sw.governingExpression);
      t.NonNull? ==> UnionMembers(ctx.compilation, t.value) == []
    ensures !ShouldSuppress(sw, ctx)
  {
  }

  /** Nor is a type that does not take part in the system. */
  lemma NonUnionNoSuppression(sw: SwitchExpression, ctx: SuppressionContext)
    requires sw.syntaxTree in ctx.semanticModels
    requires var t := TypeOf(ctx.semanticModels[sw.syntaxTree], sw.governingExpression);
      t.NonNull? ==> !IsUnion(ctx.compilation, t.value)
    ensures !ShouldSuppress(sw, ctx)
  {
  }

  /** The arm `a` names a type that member `m` is: `m` itself, or an interface `m` implements. */
  predicate ArmNames(c: Compilation, sm: SemanticModel, a: Arm, m: TypeId) {
    ArmType(sm, a).NonNull? && (ArmType(sm, a).value == m || ArmType(sm, a).value in AllInterfaces(c, m))
  }

  /** The coverage test, stated over the arms: every member is named by some arm. */
  lemma {:induction false} CoversAllIffNamed(c: Compilation, sm: SemanticModel, members: seq<TypeId>, arms: seq<Arm>)
    ensures CoversAll(c, members, CoveredTypes(sm, arms)) <==>
      forall m | m in members :: exists a :: a in arms && ArmNames(c, sm, a, m)
  {
    var covered := CoveredTypes(sm, arms);
    forall m | m in members
      ensures Covers(c, covered, m) <==> exists a :: a in arms && ArmNames(c, sm, a, m)
    {
      if Covers(c, covered, m) {
        var t :| t in covered && (t == m || t in AllInterfaces(c, m));
        CoveredTypesMembership(sm, arms, t);
        var a :| a in arms && ArmType(sm, a) == NonNull(t);
        assert ArmNames(c, sm, a, m);
      }
      if exists a :: a in arms && ArmNames(c, sm, a, m) {
        var a :| a in arms && ArmNames(c, sm, a, m);
        var t := ArmType(sm, a).value;
        CoveredTypesMembership(sm, arms, t);
        assert t in covered;
      }
    }
  }

  /** Adding arms to a switch that is suppressed keeps it suppressed. */
  lemma {:induction false} SuppressionMonotone(sw: SwitchExpression, ctx: SuppressionContext, more: seq<Arm>)
    requires ShouldSuppress(sw, ctx)
    ensures ShouldSuppress(sw.(arms := sw.arms + more), ctx)
  {
    var sm := ctx.semanticModels[sw.syntaxTree];
    var u := TypeOf(sm, sw.governingExpression).value;
    var c := ctx.compilation;
    CoveredTypesAppend(sm, sw.arms, more);
    var before, after := CoveredTypes(sm, sw.arms), CoveredTypes(sm, sw.arms + more);
    forall m | m in UnionMembers(c, u) ensures Covers(c, after, m) {
      assert Covers(c, before, m);
    }
  }

  /** Reordering or repeating arms does not change the decision. */
  lemma {:induction false} SuppressionOrderFree(sw: SwitchExpression, ctx: SuppressionContext, arms: seq<Arm>)
    requires forall a :: a in sw.arms <==> a in arms
    ensures ShouldSuppress(sw, ctx) == ShouldSuppress(sw.(arms := arms), ctx)
  {
    if ResolveUnion(sw, ctx).NonNull? {
      CoveredTypesOrderFree(ctx.semanticModels[sw.syntaxTree], sw.arms, arms);
    }
  }

  /** One arm naming an interface that every member implements (the whole-type
      marker) suffices, whatever the other arms are. */
  lemma {:induction false} MarkerArmSuffices(sw: SwitchExpression, ctx: SuppressionContext, marker: TypeId)
    requires ResolveUnion(sw, ctx).NonNull?
    requires var (sm, u) := ResolveUnion(sw, ctx).value;
      && (exists a :: a in sw.arms && ArmType(sm, a) == NonNull(marker))
      && forall m | m in UnionMembers(ctx.compilation, u) :: marker in AllInterfaces(ctx.compilation, m)
    ensures ShouldSuppress(sw, ctx)
  {
    var (sm, u) := ResolveUnion(sw, ctx).value;
    CoveredTypesMembership(sm, sw.arms, marker);
  }

  // ---------------------------------------------------------------------
  // Lemmas about the reported suppressions

  lemma {:induction false} QualifyingSnoc(ds: seq<Diagnostic>, d: Diagnostic, ctx: SuppressionContext)
    requires forall x | x in ds :: CastSucceeds(x)
    requires CastSucceeds(d)
    ensures Qualifying(ds + [d], ctx) == Qualifying(ds, ctx) + (if Qualifies(d, ctx) then [d] else [])
  {
    if ds == [] {
      assert [d][1..] == [];
    } else {
      assert (ds + [d])[1..] == ds[1..] + [d];
      QualifyingSnoc(ds[1..], d, ctx);
    }
  }

  /** Each occurrence of a qualifying diagnostic is suppressed once, and no
      other diagnostic is. */
  lemma {:induction false} QualifyingCount(ds: seq<Diagnostic>, ctx: SuppressionContext, d: Diagnostic)
    requires forall x | x in ds :: CastSucceeds(x)
    requires CastSucceeds(d)
    ensures multiset(Qualifying(ds, ctx))[d] == if Qualifies(d, ctx) then multiset(ds)[d] else 0
  {
    if ds != [] {
      QualifyingCount(ds[1..], ctx, d);
      assert ds == [ds[0]] + ds[1..];
    }
  }

  /** A diagnostic without a source tree is never suppressed. */
  lemma NoSourceTreeNoSuppression(ds: seq<Diagnostic>, ctx: SuppressionContext, d: Diagnostic)
    requires forall x | x in ds :: CastSucceeds(x)
    requires d.location.sourceTree.Null?
    ensures d !in Qualifying(ds, ctx)
  {
    QualifyingCount(ds, ctx, d);
  }

  // ---------------------------------------------------------------------
  // Arms with a `when` clause

  /** A value whose runtime type is member `m` is certainly caught by arm `a`:
      the arm names a type `m` is and has no `when` clause that could reject it. */
  predicate CertainlyMatches(c: Compilation, sm: SemanticModel, a: Arm, m: TypeId) {
    !a.hasWhenClause && ArmNames(c, sm, a, m)
  }

  /** The arms without a `when` clause, in order. */
  function Unguarded(arms: seq<Arm>): (r: seq<Arm>)
    ensures forall a :: a in r <==> a in arms && !a.hasWhenClause
  {
    if arms == [] then []
    else (if arms[0].hasWhenClause then [] else [arms[0]]) + Unguarded(arms[1..])
  }

  /** The decision with guarded arms left out of the covered set. */
  predicate ShouldSuppressUnguarded(sw: SwitchExpression, ctx: SuppressionContext) {
    match ResolveUnion(sw, ctx)
    case Null => false
    case NonNull((sm, u)) =>
      CoversAll(ctx.compilation, UnionMembers(ctx.compilation, u), CoveredTypes(sm, Unguarded(sw.arms)))
  }

  /** The corrected decision suppresses exactly when the gates pass and every
      member of the union is certainly caught by some arm, so it never hides
      a switch that can fail at run time on a member value. */
  lemma {:induction false} ShouldSuppressUnguardedSound(sw: SwitchExpression, ctx: SuppressionContext)
    ensures ShouldSuppressUnguarded(sw, ctx) <==>
      && ResolveUnion(sw, ctx).NonNull?
      && var (sm, u) := ResolveUnion(sw, ctx).value;
         forall m | m in UnionMembers(ctx.compilation, u) ::
           exists a :: a in sw.arms && CertainlyMatches(ctx.compilation, sm, a, m)
  {
    if ResolveUnion(sw, ctx).NonNull? {
      var (sm, u) := ResolveUnion(sw, ctx).value;
      var c := ctx.compilation;
      var members := UnionMembers(c, u);
      CoversAllIffNamed(c, sm, members, Unguarded(sw.arms));
      forall m | m in members
        ensures (exists a :: a in Unguarded(sw.arms) && ArmNames(c, sm, a, m))
            <==> (exists a :: a in sw.arms && CertainlyMatches(c, sm, a, m))
      {
        if exists a :: a in Unguarded(sw.arms) && ArmNames(c, sm, a, m) {
          var a :| a in Unguarded(sw.arms) && ArmNames(c, sm, a, m);
          assert CertainlyMatches(c, sm, a, m);
        }
        if exists a :: a in sw.arms && CertainlyMatches(c, sm, a, m) {
          var a :| a in sw.arms && CertainlyMatches(c, sm, a, m);
          assert a in Unguarded(sw.arms);
        }
      }
    }
  }

  /** On a switch without `when` clauses the corrected decision is the
      suppressor's own. */
  lemma {:induction false} UnguardedAgreesWithoutWhenClauses(sw: SwitchExpression, ctx: SuppressionContext)
    requires forall a | a in sw.arms :: !a.hasWhenClause
    ensures ShouldSuppressUnguarded(sw, ctx) == ShouldSuppress(sw, ctx)
  {
    if ResolveUnion(sw, ctx).NonNull? {
      CoveredTypesOrderFree(ctx.semanticModels[sw.syntaxTree], sw.arms, Unguarded(sw.arms));
    }
  }

  /** The filter of the reporting loop with the corrected decision. */
  predicate QualifiesUnguarded(d: Diagnostic, ctx: SuppressionContext)
    requires CastSucceeds(d)
  {
    match GetSwitch(d)
    case Null => false
    case NonNull(sw) => ShouldSuppressUnguarded(sw, ctx)
  }

  /** Leaving out the guarded arms only shrinks the covered set. */
  lemma {:induction false} UnguardedCoversLess(sm: SemanticModel, arms: seq<Arm>)
    ensures CoveredTypes(sm, Unguarded(arms)) <= CoveredTypes(sm, arms)
  {
    forall t | t in CoveredTypes(sm, Unguarded(arms)) ensures t in CoveredTypes(sm, arms) {
      CoveredTypesMembership(sm, Unguarded(arms), t);
      CoveredTypesMembership(sm, arms, t);
    }
  }

  /** The corrected filter is never laxer than the shipped one: every
      diagnostic it lets through, the shipped loop suppresses too. */
  lemma {:induction false} CorrectedFilterIsStricter(d: Diagnostic, ctx: SuppressionContext)
    requires CastSucceeds(d)
    ensures QualifiesUnguarded(d, ctx) ==> Qualifies(d, ctx)
  {
    if GetSwitch(d).NonNull? && ResolveUnion(GetSwitch(d).value, ctx).NonNull? {
      var sw := GetSwitch(d).value;
      var (sm, u) := ResolveUnion(sw, ctx).value;
      var c := ctx.compilation;
      UnguardedCoversLess(sm, sw.arms);
      var small, large := CoveredTypes(sm, Unguarded(sw.arms)), CoveredTypes(sm, sw.arms);
      if QualifiesUnguarded(d, ctx) {
        forall m | m in UnionMembers(c, u) ensures Covers(c, large, m) {
          assert Covers(c, small, m);
        }
      }
    }
  }

  /** At a switch without `when` clauses the two filters agree. */
  lemma QualifiesAsShipped(d: Diagnostic, ctx: SuppressionContext)
    requires CastSucceeds(d) && GetSwitch(d).NonNull?
    requires forall a | a in GetSwitch(d).value.arms :: !a.hasWhenClause
    ensures QualifiesUnguarded(d, ctx) <==> Qualifies(d, ctx)
  {
    UnguardedAgreesWithoutWhenClauses(GetSwitch(d).value, ctx);
  }
}
