/** Values shared by all components. */
module Common {

  datatype Option<+T> = None | Some(value: T) {
    function GetOr(default: T): T {
      match this
      case None => default
      case Some(v) => v
    }
  }

  /** k8s.io/apimachinery/pkg/types.NamespacedName */
  datatype NamespacedName = NamespacedName(namespace: string, name: string)

  /** The elements of a set, in no particular order. */
  method UnsortedList<T(==)>(s: set<T>) returns (list: seq<T>)
    ensures forall x :: x in list <==> x in s
  {
    list := [];
    var rest := s;
    while rest != {}
      invariant rest <= s
      invariant forall x :: x in list <==> x in s && x !in rest
      decreases rest
    {
      var x :| x in rest;
      list := list + [x];
      rest := rest - {x};
    }
  }
}
