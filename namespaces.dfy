/**
  The namespace paths the analyzers know by heart, and the construction of a
  qualified type name such as `System.Threading.Tasks.Task` out of a namespace
  path and a simple type name.
*/
module Namespaces {
  import opened Text

  const SystemThreadingTasks: seq<string> := ["System", "Threading", "Tasks"]

  const SystemRuntimeCompilerServices: seq<string> := ["System", "Runtime", "CompilerServices"]

  const MicrosoftVisualStudioThreading: seq<string> := ["Microsoft", "VisualStudio", "Threading"]

  /** The namespace of the Visual Studio SDK's `Package` and `ServiceProvider` types, which the service-usage rule looks for. */
  const MicrosoftVisualStudioShell: seq<string> := ["Microsoft", "VisualStudio", "Shell"]

  /** A simple name node: a plain identifier, or an identifier with type arguments. */
  datatype SimpleName =
    | IdentifierName(identifier: string)
    | GenericName(identifier: string, typeArguments: seq<string>)

  /**
    A name node. A qualified name has a name on its left and always a simple
    name on its right, so `A.B.C` is `Qualified(Qualified(A, B), C)`.
  */
  datatype Name =
    | Simple(name: SimpleName)
    | Qualified(left: Name, right: SimpleName)

  datatype ArgumentNullException = ArgumentNullException(paramName: string)

  datatype Result<+T> = Success(value: T) | Failure(error: ArgumentNullException)

  /** The simple names of a name, from left to right. */
  function Components(n: Name): seq<SimpleName> {
    match n
    case Simple(s) => [s]
    case Qualified(left, right) => Components(left) + [right]
  }

  /** How many qualified-name nodes a name is built of. */
  function QualifiedCount(n: Name): nat {
    match n
    case Simple(_) => 0
    case Qualified(left, _) => QualifiedCount(left) + 1
  }

  function Identifiers(path: seq<string>): (r: seq<SimpleName>)
    ensures |r| == |path|
    ensures forall i :: 0 <= i < |path| ==> r[i] == IdentifierName(path[i])
  {
    seq(|path|, i requires 0 <= i < |path| => IdentifierName(path[i]))
  }

  /** A name is determined by its components: the nesting is always to the left, so no two names flatten alike. */
  lemma {:induction false} ComponentsDetermineName(a: Name, b: Name)
    requires Components(a) == Components(b)
    ensures a == b
  {
    match a
    case Simple(_) =>
      if b.Qualified? { ComponentsNonEmpty(b.left); }
    case Qualified(la, ra) =>
      if b.Simple? {
        ComponentsNonEmpty(la);
      } else {
        var ca, cb := Components(la), Components(b.left);
        assert ca + [ra] == cb + [b.right];
        assert ca == (ca + [ra])[..|ca|];
        assert cb == (cb + [b.right])[..|cb|];
        ComponentsDetermineName(la, b.left);
      }
  }

  lemma {:induction false} ComponentsNonEmpty(n: Name)
    ensures |Components(n)| >= 1
  {
    match n
    case Simple(_) =>
    case Qualified(left, _) => ComponentsNonEmpty(left);
  }

  /**
    Builds the qualified name `namespaces[0]. ... .namespaces[n-1].typeName`,
    nesting to the left. An empty namespace list gives no name at all, and a
    missing argument is an `ArgumentNullException` naming that parameter.
  */
  method MakeTypeSyntax(namespaces: Option<seq<string>>, typeName: Option<SimpleName>)
    returns (r: Result<Option<Name>>)
    ensures namespaces.None? ==> r == Failure(ArgumentNullException("namespaces"))
    ensures namespaces.Some? && typeName.None? ==> r == Failure(ArgumentNullException("typeName"))
    ensures namespaces.Some? && typeName.Some? ==> r.Success?
    ensures r.Success? ==> (r.value.None? <==> namespaces.value == [])
    ensures r.Success? && r.value.Some? ==>
      var q := r.value.value;
      && q.Qualified?
      && Components(q) == Identifiers(namespaces.value) + [typeName.value]
      && q.right == typeName.value
      && QualifiedCount(q) == |namespaces.value|
  {
    if namespaces.None? {
      return Failure(ArgumentNullException("namespaces"));
    }
    if typeName.None? {
      return Failure(ArgumentNullException("typeName"));
    }
    var ns, t := namespaces.value, typeName.value;
    ghost var all := Identifiers(ns) + [t];
    var result: Option<Name> := None;
    for i := 0 to |ns|
      invariant result.None? <==> i == 0
      invariant result.Some? ==>
        && result.value.Qualified?
        && Components(result.value) == all[..i + 1]
        && QualifiedCount(result.value) == i
    {
      var left := if result.Some? then result.value else Simple(IdentifierName(ns[i]));
      var right := if i + 1 < |ns| then IdentifierName(ns[i + 1]) else t;
      assert Components(left) == all[..i + 1];
      assert right == all[i + 1];
      assert all[..i + 2] == all[..i + 1] + [all[i + 1]];
      result := Some(Qualified(left, right));
    }
    assert all[..|ns| + 1] == all;
    if result.Some? {
      var q := result.value;
      assert Components(q) == Components(q.left) + [q.right];
      assert all[|ns|] == t;
    }
    return Success(result);
  }
}
