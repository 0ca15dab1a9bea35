/**
  The VSTHRD010 rule: using a Visual Studio service (a COM interface from a
  listed assembly, `Package.GetService`, an instance member of the Shell's
  `ServiceProvider`) is reported unless the enclosing method has, earlier in
  its text, called a method that asserts it runs on the main thread or
  switches to it.

  The compiler front end is represented by data: each visited syntax node
  arrives as a `Site` that carries the node's identity, the nearest enclosing
  method-like declaration, and the symbol the semantic model resolved for it
  (with the containing type, the static flag and the interfaces the member
  implements). A `MethodAnalyzer` is created per code block and holds the
  per-declaration threading facts and the diagnostics it reported.
*/
module VsServiceUsage {
  import opened Text
  import Namespaces

  /** What is known about the thread a method body runs on. */
  datatype ThreadingContext = Unknown | MainThread | NotMainThread

  /** The identity of a syntax node. */
  type NodeId = nat

  datatype TypeKind = Class | Struct | Interface | Enum | Delegate | OtherKind

  datatype TypeSymbol = TypeSymbol(
    name: string,
    kind: TypeKind,
    containingAssembly: Option<string>,  // the containing assembly's name; None when there is no containing assembly
    containingNamespace: seq<string>)

  /** A resolved method or property. */
  datatype MemberSymbol = MemberSymbol(
    name: string,
    isStatic: bool,
    containingType: Option<TypeSymbol>,
    interfacesImplemented: seq<TypeSymbol>)  // the interfaces whose members this member implements, in the front end's order

  /** The three lists read from the project's additional files. */
  datatype Config = Config(
    mainThreadAssertingMethods: set<string>,
    mainThreadSwitchingMethods: set<string>,
    typesRequiringMainThread: set<string>)

  /**
    A syntax node of one of the four kinds the rule registers for. Every site
    knows its own node and the nearest enclosing method-like declaration, if
    any; a resolved symbol of the wrong kind is `None`.
  */
  datatype Site =
    | Invocation(node: NodeId, enclosingDeclaration: Option<NodeId>, invoked: Option<MemberSymbol>,
                 expression: NodeId, memberName: Option<NodeId>)  // memberName: the name part when the callee is `x.Name`
    | MemberAccess(node: NodeId, enclosingDeclaration: Option<NodeId>, property: Option<MemberSymbol>, name: NodeId)
    | Cast(node: NodeId, enclosingDeclaration: Option<NodeId>, targetType: Option<TypeSymbol>)
    | AsOrIs(node: NodeId, enclosingDeclaration: Option<NodeId>, rightType: Option<TypeSymbol>)

  /** A VSTHRD010 diagnostic: where it is anchored and the type named in its message. */
  datatype Diagnostic = Diagnostic(location: NodeId, typeName: string)

  // ---------------------------------------------------------------------
  // Classification
  // ---------------------------------------------------------------------

  predicate BelongsToNamespace(t: TypeSymbol, ns: seq<string>) {
    t.containingNamespace == ns
  }

  /** Rule 1: an interface declared in an assembly whose name starts with a configured prefix. */
  predicate ListedAssemblyInterface(config: Config, t: TypeSymbol) {
    && t.kind == Interface
    && t.containingAssembly.Some?
    && exists prefix | prefix in config.typesRequiringMainThread :: prefix <= t.containingAssembly.value
  }

  /** Rule 2: `GetService` on the Shell's `Package`. */
  predicate PackageGetService(t: TypeSymbol, symbol: Option<MemberSymbol>) {
    symbol.Some? && symbol.value.name == "GetService" && t.name == "Package"
    && BelongsToNamespace(t, Namespaces.MicrosoftVisualStudioShell)
  }

  /** Rule 3: any instance member of the Shell's `ServiceProvider`. */
  predicate ServiceProviderInstanceMember(t: TypeSymbol, symbol: Option<MemberSymbol>) {
    symbol.Some? && !symbol.value.isStatic && t.name == "ServiceProvider"
    && BelongsToNamespace(t, Namespaces.MicrosoftVisualStudioShell)
  }

  predicate RequiresMainThread(config: Config, t: TypeSymbol, symbol: Option<MemberSymbol>) {
    ListedAssemblyInterface(config, t) || PackageGetService(t, symbol) || ServiceProviderInstanceMember(t, symbol)
  }

  /** The recorded context of a declaration; no declaration, or no entry, is `Unknown`. */
  function ContextOf(facts: map<NodeId, ThreadingContext>, decl: Option<NodeId>): ThreadingContext {
    if decl.Some? && decl.value in facts then facts[decl.value] else Unknown
  }

  /** The shared violation rule: the use requires the main thread and the declaration is not known to be on it. */
  predicate Reports(config: Config, facts: map<NodeId, ThreadingContext>, t: TypeSymbol,
                    symbol: Option<MemberSymbol>, decl: Option<NodeId>)
  {
    RequiresMainThread(config, t, symbol) && ContextOf(facts, decl) != MainThread
  }

  /** A call to one of the configured asserting or switching methods, matched by simple name. */
  predicate EstablishesMainThread(config: Config, m: MemberSymbol) {
    m.name in config.mainThreadAssertingMethods || m.name in config.mainThreadSwitchingMethods
  }

  /** Every recorded fact is `MainThread`: the only value the rule ever writes. */
  predicate OnlyMainThread(facts: map<NodeId, ThreadingContext>) {
    forall d | d in facts :: facts[d] == MainThread
  }

  // ---------------------------------------------------------------------
  // The effect of visiting one site
  // ---------------------------------------------------------------------

  /** What a visit leaves behind: the new facts, the diagnostics it reported, and whether it threw. */
  datatype Outcome = Outcome(facts: map<NodeId, ThreadingContext>, diagnostics: seq<Diagnostic>, threw: bool)

  /** The index of the first interface in `ifaces` whose use would be reported. */
  function FirstReportingInterface(config: Config, facts: map<NodeId, ThreadingContext>, ifaces: seq<TypeSymbol>,
                                   m: MemberSymbol, decl: Option<NodeId>): (r: Option<nat>)
    ensures r.Some? ==> r.value < |ifaces| && Reports(config, facts, ifaces[r.value], Some(m), decl)
    ensures r.Some? ==> forall j :: 0 <= j < r.value ==> !Reports(config, facts, ifaces[j], Some(m), decl)
    ensures r.None? <==> forall j :: 0 <= j < |ifaces| ==> !Reports(config, facts, ifaces[j], Some(m), decl)
  {
    if ifaces == [] then None
    else if Reports(config, facts, ifaces[0], Some(m), decl) then Some(0)
    else
      match FirstReportingInterface(config, facts, ifaces[1..], m, decl)
      case None => None
      case Some(i) => Some(i + 1)
  }

  function Report(t: TypeSymbol, location: NodeId): seq<Diagnostic> {
    [Diagnostic(location, t.name)]
  }

  /**
    The specification of the four handlers: how one visit changes the facts,
    which diagnostics it reports, and whether it throws.
  */
  function Visit(config: Config, facts: map<NodeId, ThreadingContext>, site: Site): Outcome {
    match site
    case Invocation(node, decl, invoked, expression, memberName) =>
      if invoked.None? then Outcome(facts, [], false)
      else
        var m := invoked.value;
        if decl.Some? && EstablishesMainThread(config, m) then Outcome(facts[decl.value := MainThread], [], false)
        else if m.containingType.None? then Outcome(facts, [], true)
        else
          var focus := memberName.GetOr(expression);
          var t := m.containingType.value;
          if Reports(config, facts, t, invoked, decl) then Outcome(facts, Report(t, focus), false)
          else (match FirstReportingInterface(config, facts, m.interfacesImplemented, m, decl)
            case Some(i) => Outcome(facts, Report(m.interfacesImplemented[i], focus), false)
            case None => Outcome(facts, [], false))
    case MemberAccess(node, decl, property, name) =>
      if property.None? then Outcome(facts, [], false)
      else if property.value.containingType.None? then Outcome(facts, [], true)
      else
        var t := property.value.containingType.value;
        Outcome(facts, if Reports(config, facts, t, property, decl) then Report(t, name) else [], false)
    case Cast(node, decl, targetType) =>
      if targetType.None? then Outcome(facts, [], false)
      else Outcome(facts, if Reports(config, facts, targetType.value, None, decl) then Report(targetType.value, node) else [], false)
    case AsOrIs(node, decl, rightType) =>
      if rightType.None? then Outcome(facts, [], false)
      else Outcome(facts, if Reports(config, facts, rightType.value, None, decl) then Report(rightType.value, node) else [], false)
  }

  // ---------------------------------------------------------------------
  // The analyzer object
  // ---------------------------------------------------------------------

  datatype TypeCheck = Returned(reported: bool) | ArgumentNullThrown

  class MethodAnalyzer {
    const config: Config
    /** The threading context established so far, per enclosing method-like declaration. */
    var methodDeclarationNodes: map<NodeId, ThreadingContext>
    /** The diagnostics reported so far, in order. */
    var diagnostics: seq<Diagnostic>

    ghost predicate Valid()
      reads this
    {
      OnlyMainThread(methodDeclarationNodes)
    }

    constructor (config: Config)
      ensures Valid()
      ensures this.config == config && methodDeclarationNodes == map[] && diagnostics == []
    {
      this.config := config;
      methodDeclarationNodes := map[];
      diagnostics := [];
    }

    /**
      Classifies `type` (with the member `symbol`, if any) and reports a
      diagnostic at `focusDiagnosticOn`, or at the site's own node when there
      is no focus, when the use requires the main thread and the enclosing
      declaration is not known to run on it.
    */
    method AnalyzeTypeWithinContext(typeSymbol: Option<TypeSymbol>, symbol: Option<MemberSymbol>, node: NodeId,
                                    enclosingDeclaration: Option<NodeId>, focusDiagnosticOn: Option<NodeId>)
      returns (r: TypeCheck)
      modifies this`diagnostics
      ensures typeSymbol.None? ==> r == ArgumentNullThrown && diagnostics == old(diagnostics)
      ensures typeSymbol.Some? ==>
        && r == Returned(Reports(config, methodDeclarationNodes, typeSymbol.value, symbol, enclosingDeclaration))
        && diagnostics == old(diagnostics) + (if r.reported then Report(typeSymbol.value, focusDiagnosticOn.GetOr(node)) else [])
    {
      if typeSymbol.None? {
        return ArgumentNullThrown;
      }
      var t := typeSymbol.value;
      var requiresUIThread := t.kind == Interface && t.containingAssembly.Some?
        && exists prefix | prefix in config.typesRequiringMainThread :: prefix <= t.containingAssembly.value;
      requiresUIThread := requiresUIThread || (symbol.Some? && symbol.value.name == "GetService" && t.name == "Package"
        && BelongsToNamespace(t, Namespaces.MicrosoftVisualStudioShell));
      requiresUIThread := requiresUIThread || (symbol.Some? && !symbol.value.isStatic && t.name == "ServiceProvider"
        && BelongsToNamespace(t, Namespaces.MicrosoftVisualStudioShell));

      if requiresUIThread {
        var threadingContext := Unknown;
        if enclosingDeclaration.Some? && enclosingDeclaration.value in methodDeclarationNodes {
          threadingContext := methodDeclarationNodes[enclosingDeclaration.value];
        }
        if threadingContext != MainThread {
          var location := if focusDiagnosticOn.Some? then focusDiagnosticOn.value else node;
          diagnostics := diagnostics + [Diagnostic(location, t.name)];
          return Returned(true);
        }
      }
      return Returned(false);
    }

    /**
      An invocation of one of the configured methods inside a declaration marks
      that declaration as running on the main thread. Any other call is checked
      against its containing type and then, only if that did not report,
      against the interfaces it implements until one reports.
    */
    method AnalyzeInvocation(site: Site) returns (threw: bool)
      requires site.Invocation? && Valid()
      modifies this`methodDeclarationNodes, this`diagnostics
      ensures Valid()
      ensures var o := Visit(config, old(methodDeclarationNodes), site);
        && methodDeclarationNodes == o.facts
        && diagnostics == old(diagnostics) + o.diagnostics
        && threw == o.threw
    {
      threw := false;
      if site.invoked.None? {
        return;
      }
      var invokeMethod := site.invoked.value;
      if site.enclosingDeclaration.Some? {
        if invokeMethod.name in config.mainThreadAssertingMethods || invokeMethod.name in config.mainThreadSwitchingMethods {
          methodDeclarationNodes := methodDeclarationNodes[site.enclosingDeclaration.value := MainThread];
          return;
        }
      }

      var focusedNode := if site.memberName.Some? then site.memberName.value else site.expression;
      var r := AnalyzeTypeWithinContext(invokeMethod.containingType, site.invoked, site.node,
                                        site.enclosingDeclaration, Some(focusedNode));
      if r.ArgumentNullThrown? {
        return true;
      }
      if !r.reported {
        var ifaces := invokeMethod.interfacesImplemented;
        var i := 0;
        while i < |ifaces|
          invariant 0 <= i <= |ifaces|
          invariant diagnostics == old(diagnostics)
          invariant methodDeclarationNodes == old(methodDeclarationNodes)
          invariant forall j :: 0 <= j < i ==>
            !Reports(config, methodDeclarationNodes, ifaces[j], site.invoked, site.enclosingDeclaration)
        {
          var ri := AnalyzeTypeWithinContext(Some(ifaces[i]), site.invoked, site.node,
                                             site.enclosingDeclaration, Some(focusedNode));
          if ri.reported {
            // Stop at the first interface that reports.
            break;
          }
          i := i + 1;
        }
      }
    }

    /** A property access is checked against the property's containing type; the diagnostic underlines the member name. */
    method AnalyzeMemberAccess(site: Site) returns (threw: bool)
      requires site.MemberAccess? && Valid()
      modifies this`diagnostics
      ensures Valid()
      ensures var o := Visit(config, methodDeclarationNodes, site);
        && diagnostics == old(diagnostics) + o.diagnostics
        && threw == o.threw
    {
      threw := false;
      if site.property.Some? {
        var r := AnalyzeTypeWithinContext(site.property.value.containingType, site.property, site.node,
                                          site.enclosingDeclaration, Some(site.name));
        threw := r.ArgumentNullThrown?;
      }
    }

    /** A cast is checked against its target type, with no member; the diagnostic covers the whole cast. */
    method AnalyzeCast(site: Site)
      requires site.Cast? && Valid()
      modifies this`diagnostics
      ensures Valid()
      ensures diagnostics == old(diagnostics) + Visit(config, methodDeclarationNodes, site).diagnostics
    {
      if site.targetType.Some? {
        var _ := AnalyzeTypeWithinContext(site.targetType, None, site.node, site.enclosingDeclaration, None);
      }
    }

    /** An `as` or `is` expression is checked against its right-hand type, like a cast. */
    method AnalyzeAs(site: Site)
      requires site.AsOrIs? && Valid()
      modifies this`diagnostics
      ensures Valid()
      ensures diagnostics == old(diagnostics) + Visit(config, methodDeclarationNodes, site).diagnostics
    {
      if site.rightType.Some? {
        var _ := AnalyzeTypeWithinContext(site.rightType, None, site.node, site.enclosingDeclaration, None);
      }
    }

    /** The registration: each syntax kind goes to its handler. */
    method AnalyzeNode(site: Site) returns (threw: bool)
      requires Valid()
      modifies this`methodDeclarationNodes, this`diagnostics
      ensures Valid()
      ensures var o := Visit(config, old(methodDeclarationNodes), site);
        && methodDeclarationNodes == o.facts
        && diagnostics == old(diagnostics) + o.diagnostics
        && threw == o.threw
    {
      match site
      case Invocation(_, _, _, _, _) =>
        threw := AnalyzeInvocation(site);
      case MemberAccess(_, _, _, _) =>
        threw := AnalyzeMemberAccess(site);
      case Cast(_, _, _) =>
        AnalyzeCast(site);
        threw := false;
      case AsOrIs(_, _, _) =>
        AnalyzeAs(site);
        threw := false;
    }
  }

  // ---------------------------------------------------------------------
  // Properties of a single visit
  // ---------------------------------------------------------------------

  function EnclosingDeclaration(site: Site): Option<NodeId> {
    site.enclosingDeclaration
  }

  /** The only write a visit makes is `MainThread`, and no declaration loses its entry. */
  lemma VisitOnlyRecordsMainThread(config: Config, facts: map<NodeId, ThreadingContext>, site: Site)
    ensures var f := Visit(config, facts, site).facts;
      && facts.Keys <= f.Keys
      && forall d | d in f :: f[d] == MainThread || (d in facts && f[d] == facts[d])
  {
  }

  /** An asserting or switching call inside a declaration records `MainThread` for it and reports nothing. */
  lemma EstablishingCallRecords(config: Config, facts: map<NodeId, ThreadingContext>, site: Site)
    requires site.Invocation? && site.invoked.Some? && site.enclosingDeclaration.Some?
    requires EstablishesMainThread(config, site.invoked.value)
    ensures Visit(config, facts, site).facts == facts[site.enclosingDeclaration.value := MainThread]
    ensures Visit(config, facts, site).diagnostics == []
    ensures ContextOf(Visit(config, facts, site).facts, site.enclosingDeclaration) == MainThread
  {
  }

  /** Recording twice is recording once. */
  lemma VisitIdempotent(config: Config, facts: map<NodeId, ThreadingContext>, site: Site)
    ensures var f := Visit(config, facts, site).facts;
      Visit(config, f, site).facts == f
  {
  }

  /**
    Every site reports at most one diagnostic. For a call it is anchored at the
    method name when the callee is a member access, and it names either the
    containing type or the first reporting interface.
  */
  lemma AtMostOneDiagnostic(config: Config, facts: map<NodeId, ThreadingContext>, site: Site)
    ensures |Visit(config, facts, site).diagnostics| <= 1
    ensures site.Invocation? && Visit(config, facts, site).diagnostics != [] ==>
      && site.invoked.Some? && site.invoked.value.containingType.Some?
      && Visit(config, facts, site).diagnostics[0].location == site.memberName.GetOr(site.expression)
  {
  }

  /**
    A call reports exactly when it is not an establishing call inside a
    declaration and its containing type or one of its interfaces requires the
    main thread while the declaration is not known to be on it; the
    interfaces are consulted only when the containing type does not report.
  */
  lemma InvocationReportsIff(config: Config, facts: map<NodeId, ThreadingContext>, site: Site)
    requires site.Invocation? && site.invoked.Some? && site.invoked.value.containingType.Some?
    ensures var m := site.invoked.value;
      var decl := site.enclosingDeclaration;
      Visit(config, facts, site).diagnostics != [] <==>
        && !(decl.Some? && EstablishesMainThread(config, m))
        && (Reports(config, facts, m.containingType.value, site.invoked, decl)
            || exists j :: 0 <= j < |m.interfacesImplemented| && Reports(config, facts, m.interfacesImplemented[j], site.invoked, decl))
    ensures var m := site.invoked.value;
      Visit(config, facts, site).diagnostics != [] && !Reports(config, facts, m.containingType.value, site.invoked, site.enclosingDeclaration) ==>
        exists j :: 0 <= j < |m.interfacesImplemented|
          && Visit(config, facts, site).diagnostics[0].typeName == m.interfacesImplemented[j].name
          && (forall k :: 0 <= k < j ==> !Reports(config, facts, m.interfacesImplemented[k], site.invoked, site.enclosingDeclaration))
  {
    var m := site.invoked.value;
    var decl := site.enclosingDeclaration;
    var ifaces := m.interfacesImplemented;
    var first := FirstReportingInterface(config, facts, ifaces, m, decl);
    if first.Some? {
      var o := Visit(config, facts, site);
      if o.diagnostics != [] && !Reports(config, facts, m.containingType.value, site.invoked, decl) {
        assert o.diagnostics[0].typeName == ifaces[first.value].name;
      }
    }
  }

  /**
    A cast, `as` or `is` has no member, so only the listed-assembly interface
    rule can make it report, and the diagnostic covers the whole node.
  */
  lemma TypeSitesUseOnlyInterfaceRule(config: Config, facts: map<NodeId, ThreadingContext>, site: Site, t: TypeSymbol)
    requires (site.Cast? && site.targetType == Some(t)) || (site.AsOrIs? && site.rightType == Some(t))
    ensures Visit(config, facts, site).diagnostics ==
      if ListedAssemblyInterface(config, t) && ContextOf(facts, site.enclosingDeclaration) != MainThread
      then [Diagnostic(site.node, t.name)] else []
  {
  }

  /** An unresolved symbol is skipped: nothing is recorded, reported or thrown. */
  lemma UnresolvedSymbolSkipped(config: Config, facts: map<NodeId, ThreadingContext>, site: Site)
    requires match site
      case Invocation(_, _, invoked, _, _) => invoked.None?
      case MemberAccess(_, _, property, _) => property.None?
      case Cast(_, _, t) => t.None?
      case AsOrIs(_, _, t) => t.None?
    ensures Visit(config, facts, site) == Outcome(facts, [], false)
  {
  }

  /** A type from an assembly matching no configured prefix is never flagged by the interface rule, whatever its kind. */
  lemma UnlistedAssemblyNeverRuleOne(config: Config, t: TypeSymbol)
    requires t.containingAssembly.Some?
    requires forall prefix | prefix in config.typesRequiringMainThread :: !(prefix <= t.containingAssembly.value)
    ensures !ListedAssemblyInterface(config, t)
  {
  }

  // ---------------------------------------------------------------------
  // A whole pass over the sites of one code block, in lexical order
  // ---------------------------------------------------------------------

  datatype Trace = Trace(facts: map<NodeId, ThreadingContext>, diagnostics: seq<Diagnostic>)

  /** Visiting `sites` one after another from `facts`; a visit that throws leaves no effect behind. */
  function Run(config: Config, facts: map<NodeId, ThreadingContext>, sites: seq<Site>): Trace
    decreases |sites|
  {
    if sites == [] then Trace(facts, [])
    else
      var before := Run(config, facts, sites[..|sites| - 1]);
      var o := Visit(config, before.facts, sites[|sites| - 1]);
      Trace(o.facts, before.diagnostics + o.diagnostics)
  }

  /** The facts in force when the `k`-th site is visited. */
  function FactsBefore(config: Config, facts: map<NodeId, ThreadingContext>, sites: seq<Site>, k: nat): map<NodeId, ThreadingContext>
    requires k <= |sites|
  {
    Run(config, facts, sites[..k]).facts
  }

  predicate EstablishesIn(config: Config, site: Site, d: NodeId) {
    site.Invocation? && site.invoked.Some? && site.enclosingDeclaration == Some(d)
    && EstablishesMainThread(config, site.invoked.value)
  }

  /** The pass keeps every fact `MainThread`. */
  lemma {:induction false} RunOnlyMainThread(config: Config, facts: map<NodeId, ThreadingContext>, sites: seq<Site>)
    requires OnlyMainThread(facts)
    ensures OnlyMainThread(Run(config, facts, sites).facts)
    decreases |sites|
  {
    if sites != [] {
      var before := Run(config, facts, sites[..|sites| - 1]);
      RunOnlyMainThread(config, facts, sites[..|sites| - 1]);
      VisitOnlyRecordsMainThread(config, before.facts, sites[|sites| - 1]);
    }
  }

  /** Once a declaration is on the main thread it stays there for the rest of the pass. */
  lemma {:induction false} MainThreadIsKept(config: Config, facts: map<NodeId, ThreadingContext>, sites: seq<Site>, j: nat, k: nat)
    requires j <= k <= |sites|
    ensures forall d :: ContextOf(FactsBefore(config, facts, sites, j), Some(d)) == MainThread ==>
      ContextOf(FactsBefore(config, facts, sites, k), Some(d)) == MainThread
    decreases k - j
  {
    if j < k {
      MainThreadIsKept(config, facts, sites, j + 1, k);
      var pre := sites[..j + 1];
      assert pre[..|pre| - 1] == sites[..j];
      VisitOnlyRecordsMainThread(config, FactsBefore(config, facts, sites, j), sites[j]);
    }
  }

  /**
    The order-sensitive guarantee: after an asserting or switching call in a
    declaration, no later site of that declaration is reported.
  */
  lemma NoDiagnosticAfterEstablishing(config: Config, facts: map<NodeId, ThreadingContext>, sites: seq<Site>,
                                      j: nat, k: nat, d: NodeId)
    requires j < k < |sites|
    requires EstablishesIn(config, sites[j], d)
    requires sites[k].enclosingDeclaration == Some(d)
    ensures Visit(config, FactsBefore(config, facts, sites, k), sites[k]).diagnostics == []
  {
    var pre := sites[..j + 1];
    assert pre[..|pre| - 1] == sites[..j];
    EstablishingCallRecords(config, FactsBefore(config, facts, sites, j), sites[j]);
    MainThreadIsKept(config, facts, sites, j + 1, k);
  }

  /**
    Before the first establishing call of a declaration that starts without a
    fact, the declaration's context is `Unknown`, so every use in it that
    requires the main thread is reported.
  */
  lemma {:induction false} UnknownUntilEstablished(config: Config, facts: map<NodeId, ThreadingContext>, sites: seq<Site>,
                                                  k: nat, d: NodeId)
    requires k <= |sites| && d !in facts
    requires forall j :: 0 <= j < k ==> !EstablishesIn(config, sites[j], d)
    ensures d !in FactsBefore(config, facts, sites, k)
    ensures ContextOf(FactsBefore(config, facts, sites, k), Some(d)) == Unknown
    decreases k
  {
    if k > 0 {
      UnknownUntilEstablished(config, facts, sites, k - 1, d);
      var pre := sites[..k];
      assert pre[..|pre| - 1] == sites[..k - 1];
      assert pre[|pre| - 1] == sites[k - 1];
    }
  }

  /** The pass's diagnostics are those of its visits, in visiting order. */
  lemma {:induction false} RunDiagnosticsAppend(config: Config, facts: map<NodeId, ThreadingContext>, sites: seq<Site>, k: nat)
    requires k < |sites|
    ensures Run(config, facts, sites[..k + 1]).diagnostics ==
      Run(config, facts, sites[..k]).diagnostics + Visit(config, FactsBefore(config, facts, sites, k), sites[k]).diagnostics
  {
    var pre := sites[..k + 1];
    assert pre[..|pre| - 1] == sites[..k];
    assert pre[|pre| - 1] == sites[k];
  }
}
