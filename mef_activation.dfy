/**
  The VSTHRD013 rule: a class exported to MEF is activated on whatever thread
  first asks for it, so its importing constructor must be free-threaded. The
  rule finds the export attribute (MEF version 1 or 2) on a class or on its
  members, picks the constructor MEF would call, and reports at the class
  declaration when that constructor has source.

  Symbols are represented by data: a named type is identified by a `TypeId`,
  and an attribute whose class did not resolve has no class at all.
*/
module MefActivation {
  import opened Text

  /** The identity of a named type symbol. */
  type TypeId = nat

  /** The identity of a syntax node. */
  type NodeId = nat

  datatype Attribute = Attribute(attributeClass: Option<TypeId>)

  datatype MethodSymbol = MethodSymbol(attributes: seq<Attribute>, parameterCount: nat, hasDeclaringSyntax: bool)

  /** A member of a class, as far as the rule looks at it: its attributes. */
  datatype MemberSymbol = MemberSymbol(attributes: seq<Attribute>)

  datatype ClassSymbol = ClassSymbol(
    attributes: seq<Attribute>,
    members: seq<MemberSymbol>,
    instanceConstructors: seq<MethodSymbol>)

  /** The MEF types looked up by metadata name when a compilation starts; `None` when the compilation does not reference them. */
  datatype CompilationData = CompilationData(
    exportV1Attribute: Option<TypeId>,
    exportV2Attribute: Option<TypeId>,
    importingConstructorV1: Option<TypeId>,
    importingConstructorV2: Option<TypeId>,
    onImportsSatisfiedAttribute: Option<TypeId>,
    importsSatisfiedNotificationInterface: Option<TypeId>)

  datatype Exception = NullReferenceException

  datatype Result<+T> = Success(value: T) | Failure(error: Exception)

  /** The attribute's class is `t`; an unresolved class, or an unresolved `t`, never matches. */
  predicate IsAttribute(a: Attribute, t: Option<TypeId>) {
    a.attributeClass.Some? && a.attributeClass == t
  }

  predicate IsExport(a: Attribute, data: CompilationData) {
    IsAttribute(a, data.exportV1Attribute) || IsAttribute(a, data.exportV2Attribute)
  }

  /**
    The export attribute type found among a symbol's attributes: decided by
    the first export attribute in order, V1 when it is V1's class and V2
    otherwise. A missing symbol has no attributes.
  */
  function FindExportAttribute(attributes: Option<seq<Attribute>>, data: CompilationData): (r: Option<TypeId>)
    ensures attributes.None? ==> r.None?
    ensures attributes.Some? ==>
      (r.None? <==> forall i :: 0 <= i < |attributes.value| ==> !IsExport(attributes.value[i], data))
    ensures r.Some? ==> attributes.Some? && exists i :: (0 <= i < |attributes.value|
      && IsExport(attributes.value[i], data)
      && (forall j :: 0 <= j < i ==> !IsExport(attributes.value[j], data))
      && r == (if IsAttribute(attributes.value[i], data.exportV1Attribute) then data.exportV1Attribute else data.exportV2Attribute))
    ensures r.Some? ==> r == data.exportV1Attribute || r == data.exportV2Attribute
  {
    if attributes.None? then None
    else
      var attrs := attributes.value;
      match FirstWhere(attrs, a => IsExport(a, data))
      case None => None
      case Some(i) =>
        if IsAttribute(attrs[i], data.exportV1Attribute) then data.exportV1Attribute else data.exportV2Attribute
  }

  predicate HasExport(attributes: seq<Attribute>, data: CompilationData) {
    FindExportAttribute(Some(attributes), data).Some?
  }

  /** The type's own export attribute if it has one; otherwise that of the first member, in order, that has one. */
  function FindExportAttributeOnTypeOrMembers(typeSymbol: ClassSymbol, data: CompilationData): (r: Option<TypeId>)
    ensures HasExport(typeSymbol.attributes, data) ==> r == FindExportAttribute(Some(typeSymbol.attributes), data)
    ensures r.None? <==>
      !HasExport(typeSymbol.attributes, data)
      && forall k :: 0 <= k < |typeSymbol.members| ==> !HasExport(typeSymbol.members[k].attributes, data)
    ensures !HasExport(typeSymbol.attributes, data) && r.Some? ==>
      exists k :: 0 <= k < |typeSymbol.members|
        && r == FindExportAttribute(Some(typeSymbol.members[k].attributes), data)
        && forall j :: 0 <= j < k ==> !HasExport(typeSymbol.members[j].attributes, data)
  {
    var result := FindExportAttribute(Some(typeSymbol.attributes), data);
    if result.Some? then result
    else
      match FirstWhere(typeSymbol.members, (m: MemberSymbol) => HasExport(m.attributes, data))
      case None => None
      case Some(k) => FindExportAttribute(Some(typeSymbol.members[k].attributes), data)
  }

  /**
    Whether a constructor's attributes include `t`, scanning them in order; an
    attribute with an unresolved class reached before a match dereferences
    null and throws.
  */
  function AttributeScan(attributes: seq<Attribute>, t: Option<TypeId>): (r: Result<bool>)
    ensures r == Success(false) <==>
      forall i :: 0 <= i < |attributes| ==> attributes[i].attributeClass.Some? && !IsAttribute(attributes[i], t)
    ensures r == Success(true) <==> exists i :: (0 <= i < |attributes| && IsAttribute(attributes[i], t)
      && forall j :: 0 <= j < i ==> attributes[j].attributeClass.Some?)
    ensures r.Failure? <==> exists i :: (0 <= i < |attributes| && attributes[i].attributeClass.None?
      && forall j :: 0 <= j < i ==> !IsAttribute(attributes[j], t))
  {
    match FirstWhere(attributes, (a: Attribute) => a.attributeClass.None? || IsAttribute(a, t))
    case None => Success(false)
    case Some(i) => if attributes[i].attributeClass.None? then Failure(NullReferenceException) else Success(true)
  }

  predicate HasNoImportingAttribute(ctor: MethodSymbol, t: Option<TypeId>) {
    AttributeScan(ctor.attributes, t) == Success(false)
  }

  /** `ctors[k]` is the first constructor whose attribute scan does not come back empty. */
  predicate IsFirstImporting(ctors: seq<MethodSymbol>, t: Option<TypeId>, k: nat) {
    k < |ctors| && !HasNoImportingAttribute(ctors[k], t) && forall j :: 0 <= j < k ==> HasNoImportingAttribute(ctors[j], t)
  }

  predicate NoneImporting(ctors: seq<MethodSymbol>, t: Option<TypeId>) {
    forall j :: 0 <= j < |ctors| ==> HasNoImportingAttribute(ctors[j], t)
  }

  /** `ctors[k]` is the first parameterless constructor. */
  predicate IsFirstParameterless(ctors: seq<MethodSymbol>, k: nat) {
    k < |ctors| && ctors[k].parameterCount == 0 && forall j :: 0 <= j < k ==> ctors[j].parameterCount != 0
  }

  /**
    The constructor MEF would use: the first instance constructor carrying the
    importing-constructor attribute `t`, else the first parameterless one,
    else none. The attribute scan throws as `AttributeScan` does.
  */
  function FindImportingConstructor(classSymbol: ClassSymbol, t: Option<TypeId>): (r: Result<Option<MethodSymbol>>)
    ensures var ctors := classSymbol.instanceConstructors;
      r.Failure? <==> exists k: nat :: IsFirstImporting(ctors, t, k) && AttributeScan(ctors[k].attributes, t).Failure?
    ensures var ctors := classSymbol.instanceConstructors;
      r == Success(None) <==> NoneImporting(ctors, t) && forall j :: 0 <= j < |ctors| ==> ctors[j].parameterCount != 0
    ensures var ctors := classSymbol.instanceConstructors;
      r.Success? && r.value.Some? ==> exists k: nat :: IsFirstImporting(ctors, t, k) || IsFirstParameterless(ctors, k)
    ensures var ctors := classSymbol.instanceConstructors;
      forall k: nat :: IsFirstImporting(ctors, t, k) ==>
        r == (if AttributeScan(ctors[k].attributes, t).Failure? then Failure(NullReferenceException) else Success(Some(ctors[k])))
    ensures var ctors := classSymbol.instanceConstructors;
      forall k: nat :: NoneImporting(ctors, t) && IsFirstParameterless(ctors, k) ==> r == Success(Some(ctors[k]))
  {
    var ctors := classSymbol.instanceConstructors;
    match FirstWhere(ctors, (c: MethodSymbol) => !HasNoImportingAttribute(c, t))
    case Some(k) =>
      assert IsFirstImporting(ctors, t, k);
      assert forall k' :: IsFirstImporting(ctors, t, k') ==> k' == k;
      (match AttributeScan(ctors[k].attributes, t)
       case Failure(e) => Failure(e)
       case Success(_) => Success(Some(ctors[k])))
    case None =>
      assert NoneImporting(ctors, t);
      (match FirstWhere(ctors, (c: MethodSymbol) => c.parameterCount == 0)
       case None => Success(None)
       case Some(k) =>
         assert IsFirstParameterless(ctors, k);
         assert forall k' :: IsFirstParameterless(ctors, k') ==> k' == k;
         Success(Some(ctors[k])))
  }

  /** The MEF version 2 `[OnImportsSatisfied]` lookup is a stub that never finds a method. */
  function FindOnImportsSatisfiedMethodV2(classSymbol: ClassSymbol, onImportsSatisfiedAttribute: Option<TypeId>): (r: Option<MethodSymbol>)
    ensures r.None?
  {
    None
  }

  /** The MEF version 1 `IPartImportsSatisfiedNotification` lookup is a stub that never finds a method. */
  function FindOnImportsSatisfiedMethodV1(classSymbol: ClassSymbol, partsSatisfiedNotificationInterface: Option<TypeId>): (r: Option<MethodSymbol>)
    ensures r.None?
  {
    None
  }

  /** One diagnostic, at the class declaration, for a found method that has source. */
  function ReportThreadAffinity(classNode: NodeId, methodSymbol: Option<MethodSymbol>): (r: seq<NodeId>)
    ensures |r| <= 1
    ensures r != [] <==> methodSymbol.Some? && methodSymbol.value.hasDeclaringSyntax
    ensures forall i :: 0 <= i < |r| ==> r[i] == classNode
  {
    if methodSymbol.Some? && methodSymbol.value.hasDeclaringSyntax then [classNode] else []
  }

  /** The importing-constructor attribute of the MEF version of the export that was found. */
  function ImportingConstructorAttribute(foundExportAttribute: Option<TypeId>, data: CompilationData): Option<TypeId> {
    if foundExportAttribute == data.exportV1Attribute then data.importingConstructorV1 else data.importingConstructorV2
  }

  /** The diagnostics for an exported class: its importing constructor, then its imports-satisfied method. */
  function AnalyzeExportedClass(classNode: NodeId, classSymbol: ClassSymbol, foundExportAttribute: Option<TypeId>,
                                data: CompilationData): Result<seq<NodeId>>
  {
    var isMEFv1 := foundExportAttribute == data.exportV1Attribute;
    match FindImportingConstructor(classSymbol, ImportingConstructorAttribute(foundExportAttribute, data))
    case Failure(e) => Failure(e)
    case Success(importingConstructor) =>
      var onImportsSatisfiedMethod :=
        if isMEFv1 then FindOnImportsSatisfiedMethodV1(classSymbol, data.importsSatisfiedNotificationInterface)
        else FindOnImportsSatisfiedMethodV2(classSymbol, data.onImportsSatisfiedAttribute);
      Success(ReportThreadAffinity(classNode, importingConstructor) + ReportThreadAffinity(classNode, onImportsSatisfiedMethod))
  }

  /** The diagnostics for one class declaration, or the exception its analysis throws. */
  function AnalyzeClass(classNode: NodeId, classSymbol: Option<ClassSymbol>, data: CompilationData): Result<seq<NodeId>> {
    if classSymbol.None? then Success([])
    else
      var foundExportAttribute := FindExportAttributeOnTypeOrMembers(classSymbol.value, data);
      if foundExportAttribute.None? then Success([])
      else AnalyzeExportedClass(classNode, classSymbol.value, foundExportAttribute, data)
  }

  /** Class analysis is registered only when one of the two export attribute types resolves. */
  predicate ClassAnalysisRegistered(data: CompilationData) {
    data.exportV1Attribute.Some? || data.exportV2Attribute.Some?
  }

  datatype ClassDeclaration = ClassDeclaration(node: NodeId, symbol: Option<ClassSymbol>)

  /** The outcome of analysing each class declaration of a compilation, in order. */
  function AnalyzeCompilation(data: CompilationData, classes: seq<ClassDeclaration>): (r: seq<Result<seq<NodeId>>>)
    ensures |r| == if ClassAnalysisRegistered(data) then |classes| else 0
  {
    if !ClassAnalysisRegistered(data) then []
    else seq(|classes|, i requires 0 <= i < |classes| => AnalyzeClass(classes[i].node, classes[i].symbol, data))
  }

  // ---------------------------------------------------------------------
  // Properties
  // ---------------------------------------------------------------------

  /**
    A class gets at most one diagnostic, always at its own declaration, and it
    gets it exactly when it is exported, its importing constructor is found
    without throwing, and that constructor has source. A declaration whose
    symbol does not resolve is reported nothing, and nothing is thrown.
  */
  lemma AnalyzeClassReportsIff(classNode: NodeId, classSymbol: Option<ClassSymbol>, data: CompilationData)
    ensures classSymbol.None? ==> AnalyzeClass(classNode, classSymbol, data) == Success([])
    ensures var r := AnalyzeClass(classNode, classSymbol, data);
      r.Success? ==> |r.value| <= 1 && forall i :: 0 <= i < |r.value| ==> r.value[i] == classNode
    ensures AnalyzeClass(classNode, classSymbol, data) == Success([classNode]) <==>
      && classSymbol.Some?
      && var found := FindExportAttributeOnTypeOrMembers(classSymbol.value, data);
      && found.Some?
      && var ctor := FindImportingConstructor(classSymbol.value, ImportingConstructorAttribute(found, data));
      && ctor.Success? && ctor.value.Some? && ctor.value.value.hasDeclaringSyntax
  {
    if classSymbol.Some? {
      var found := FindExportAttributeOnTypeOrMembers(classSymbol.value, data);
      if found.Some? {
        ExportedClassReport(classNode, classSymbol.value, found, data);
      }
    }
  }

  lemma ExportedClassReport(classNode: NodeId, classSymbol: ClassSymbol, found: Option<TypeId>, data: CompilationData)
    ensures var ctor := FindImportingConstructor(classSymbol, ImportingConstructorAttribute(found, data));
      AnalyzeExportedClass(classNode, classSymbol, found, data) ==
        match ctor
        case Failure(e) => Failure(e)
        case Success(c) => Success(ReportThreadAffinity(classNode, c))
  {
    var ctor := FindImportingConstructor(classSymbol, ImportingConstructorAttribute(found, data));
    var second := if found == data.exportV1Attribute
      then FindOnImportsSatisfiedMethodV1(classSymbol, data.importsSatisfiedNotificationInterface)
      else FindOnImportsSatisfiedMethodV2(classSymbol, data.onImportsSatisfiedAttribute);
    assert ReportThreadAffinity(classNode, second) == [];
    if ctor.Success? {
      assert ReportThreadAffinity(classNode, ctor.value) + [] == ReportThreadAffinity(classNode, ctor.value);
    }
  }

  /** A class that is not exported, on itself or on any member, gets nothing and throws nothing. */
  lemma UnexportedClassIgnored(classNode: NodeId, classSymbol: ClassSymbol, data: CompilationData)
    requires !HasExport(classSymbol.attributes, data)
    requires forall k :: 0 <= k < |classSymbol.members| ==> !HasExport(classSymbol.members[k].attributes, data)
    ensures AnalyzeClass(classNode, Some(classSymbol), data) == Success([])
  {
    assert FindExportAttributeOnTypeOrMembers(classSymbol, data).None?;
  }

  /**
    When neither export attribute type resolves nothing can be found, so the
    registration guard loses no diagnostic: analysing any class would report
    nothing anyway.
  */
  lemma UnregisteredFindsNothing(data: CompilationData, classes: seq<ClassDeclaration>)
    requires !ClassAnalysisRegistered(data)
    ensures AnalyzeCompilation(data, classes) == []
    ensures forall i :: 0 <= i < |classes| ==> AnalyzeClass(classes[i].node, classes[i].symbol, data) == Success([])
  {
    forall i | 0 <= i < |classes|
      ensures AnalyzeClass(classes[i].node, classes[i].symbol, data) == Success([])
    {
      if classes[i].symbol.Some? {
        var c := classes[i].symbol.value;
        assert FindExportAttributeOnTypeOrMembers(c, data).None? by {
          assert forall a: Attribute :: !IsExport(a, data);
        }
      }
    }
  }

  /**
    The importing-constructor attribute follows the export's MEF version: a
    class exported through MEF version 2 whose constructors all take
    parameters and carry only resolved attributes other than the version 2
    importing-constructor attribute (say, only the version 1 one) gets no
    diagnostic.
  */
  lemma {:induction false} VersionMismatchIgnored(classNode: NodeId, classSymbol: ClassSymbol, data: CompilationData)
    requires FindExportAttributeOnTypeOrMembers(classSymbol, data) == data.exportV2Attribute
    requires data.exportV2Attribute != data.exportV1Attribute
    requires forall k :: 0 <= k < |classSymbol.instanceConstructors| ==>
      && classSymbol.instanceConstructors[k].parameterCount != 0
      && forall a | a in classSymbol.instanceConstructors[k].attributes ::
           a.attributeClass.Some? && a.attributeClass != data.importingConstructorV2
    ensures AnalyzeClass(classNode, Some(classSymbol), data) == Success([])
  {
    var ctors := classSymbol.instanceConstructors;
    assert ImportingConstructorAttribute(data.exportV2Attribute, data) == data.importingConstructorV2;
    forall j | 0 <= j < |ctors|
      ensures HasNoImportingAttribute(ctors[j], data.importingConstructorV2)
    {
      assert forall i :: 0 <= i < |ctors[j].attributes| ==> ctors[j].attributes[i] in ctors[j].attributes;
    }
    assert NoneImporting(ctors, data.importingConstructorV2);
    assert FindImportingConstructor(classSymbol, data.importingConstructorV2) == Success(None);
    ExportedClassReport(classNode, classSymbol, data.exportV2Attribute, data);
  }

  /** An importing constructor always wins over a parameterless one, whatever their order. */
  lemma ImportingConstructorPreferred(classSymbol: ClassSymbol, t: Option<TypeId>, k: nat)
    requires k < |classSymbol.instanceConstructors|
    requires AttributeScan(classSymbol.instanceConstructors[k].attributes, t) == Success(true)
    requires forall j :: 0 <= j < k ==> HasNoImportingAttribute(classSymbol.instanceConstructors[j], t)
    ensures FindImportingConstructor(classSymbol, t) == Success(Some(classSymbol.instanceConstructors[k]))
  {
    assert IsFirstImporting(classSymbol.instanceConstructors, t, k);
  }
}
