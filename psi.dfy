/**
 * An abstract view of the PSI tree the hierarchy utilities walk: each element
 * is described by the instanceof tests the code makes on it, the component
 * type HaxeComponentType.typeOf reports for it, and its parent.
 */
module Psi {
  import opened Wrappers

  /** The values of the HaxeComponentType enumeration. */
  datatype ComponentType = Class | Enum | Interface | Function | Method | Variable | Field | Parameter | Typedef

  /**
   * A PSI element. It holds its whole parent chain by value, so that a walk
   * along getParent() always ends; `id` tells apart elements that have the
   * same kinds and the same ancestors.
   */
  datatype Node = Node(
    id: nat,
    isHaxeFile: bool,                     // instanceof HaxeFile
    isPsiClass: bool,                     // instanceof PsiClass
    isHaxeClass: bool,                    // instanceof HaxeClass
    isAbstractHaxePsiClass: bool,         // instanceof AbstractHaxePsiClass
    isAnonymous: bool,                    // instanceof AnonymousHaxeTypeImpl
    componentType: Option<ComponentType>, // HaxeComponentType.typeOf(element); None for null
    parent: Option<Node>)                 // getParent(); None for null

  /** The element followed by its parent, grandparent, ... up to the element whose parent is null. */
  function AncestorsOrSelf(n: Node): (chain: seq<Node>)
    ensures |chain| >= 1 && chain[0] == n
    ensures forall k :: 0 <= k < |chain| - 1 ==> chain[k].parent == Some(chain[k + 1])
    ensures chain[|chain| - 1].parent == None
    decreases n
  {
    match n.parent
    case None => [n]
    case Some(p) => [n] + AncestorsOrSelf(p)
  }

  /** The top of the element's parent chain. */
  function Root(n: Node): (r: Node)
    ensures r.parent == None
    ensures r == AncestorsOrSelf(n)[|AncestorsOrSelf(n)| - 1]
    decreases n
  {
    match n.parent
    case None => n
    case Some(p) => Root(p)
  }
}
