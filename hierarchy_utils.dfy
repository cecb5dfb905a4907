/**
 * The decision rules of HaxeHierarchyUtils, the helper the type and call
 * hierarchy providers use to find the class, file or method an action is
 * about. What the IDE supplies (the data context keys, the document's PSI
 * file, the target-element lookups, reference resolution) is given as plain
 * values.
 */
module HaxeHierarchyUtils {
  import opened Wrappers
  import opened Psi

  // ---------------------------------------------------------------------
  // What the IDE supplies
  // ---------------------------------------------------------------------

  /** The project (CommonDataKeys.PROJECT); only its presence matters here. */
  datatype Project = Project(name: string)

  /** A PSI file as far as findElementAt goes: the leaf element found at each offset. */
  datatype PsiFile = PsiFile(leaves: map<int, Node>) {
    /** file.findElementAt(offset): null where no leaf covers the offset. */
    function FindElementAt(offset: int): Option<Node> {
      if offset in leaves then Some(leaves[offset]) else None
    }
  }

  /** An editor (CommonDataKeys.EDITOR) and the lookups made through it. */
  datatype Editor = Editor(
    psiFile: Option<PsiFile>,         // PsiDocumentManager.getPsiFile(editor.getDocument())
    caretOffset: int,                 // editor.getCaretModel().getOffset()
    targetElement: Option<Node>,      // findTargetElement(ELEMENT_NAME | REFERENCED_ELEMENT | LOOKUP_ITEM accepted)
    referencedElement: Option<Node>)  // findTargetElement(REFERENCED_ELEMENT | ELEMENT_NAME accepted)

  /** A DataContext: the three keys the utilities read from it. */
  datatype DataContext = DataContext(
    project: Option<Project>,  // CommonDataKeys.PROJECT
    editor: Option<Editor>,    // CommonDataKeys.EDITOR
    psiElement: Option<Node>)  // CommonDataKeys.PSI_ELEMENT

  /** A PsiReference as seen by findReferencedClassForId: one reference, or a PsiMultiReference of several. */
  datatype PsiReference =
    | Single(target: Option<Node>)          // resolve()
    | Multi(targets: seq<Option<Node>>)     // resolve() of each of getReferences(), in order

  /** A leaf PSI element (an identifier) with the reference findReferenceAt(0) finds in it. */
  datatype LeafPsiElement = LeafPsiElement(element: Node, referenceAt0: Option<PsiReference>)

  /** The exceptions the modelled code can raise. */
  datatype JavaException = NullPointerException

  /** How a call ends: with a value, or with an exception. */
  datatype Outcome<+T> = Returned(value: T) | Threw(exception: JavaException)

  /** The composite method view, wrapping a declaration that has a declaration list. */
  datatype HaxePsiMethod = HaxePsiMethod(declaration: Node)

  /** A HaxeClassResolveResult: the class it carries (getHaxeClass()), possibly null. */
  datatype HaxeClassResolveResult = HaxeClassResolveResult(haxeClass: Option<Node>)

  /** A HaxeReference expression with the result of its resolveHaxeClass(). */
  datatype HaxeReference = HaxeReference(element: Node, classResolveResult: Option<HaxeClassResolveResult>)

  // ---------------------------------------------------------------------
  // findReferencedClassForId
  // ---------------------------------------------------------------------

  /** `target != null && target instanceof PsiClass`. */
  predicate IsPsiClassTarget(target: Option<Node>) {
    target.Some? && target.value.isPsiClass
  }

  /** `resolved instanceof HaxeClass ? (HaxeClass) resolved : null`. */
  function AsHaxeClass(resolved: Option<Node>): (r: Option<Node>)
    ensures r.Some? <==> resolved.Some? && resolved.value.isHaxeClass
    ensures r.Some? ==> r == resolved
  {
    if resolved.Some? && resolved.value.isHaxeClass then resolved else None
  }

  /** Candidate i is the first, in getReferences() order, that resolves to a PsiClass. */
  ghost predicate FirstClassAt(targets: seq<Option<Node>>, i: int) {
    && 0 <= i < |targets|
    && IsPsiClassTarget(targets[i])
    && forall j :: 0 <= j < i ==> !IsPsiClassTarget(targets[j])
  }

  /**
   * findReferencedClassForId: the class an identifier refers to. With a
   * multi-reference, the first candidate resolving to a PsiClass is chosen and
   * later candidates are not looked at; in either case the result is kept
   * only if it is a HaxeClass. A missing reference outside the multi-reference
   * branch is dereferenced, which throws.
   */
  method FindReferencedClassForId(id: Option<LeafPsiElement>) returns (r: Outcome<Option<Node>>)
    ensures id.None? ==> r == Returned(None)
    ensures id.Some? && id.value.referenceAt0.None? ==> r == Threw(NullPointerException)
    ensures id.Some? && id.value.referenceAt0.Some? && id.value.referenceAt0.value.Single? ==>
              r == Returned(AsHaxeClass(id.value.referenceAt0.value.target))
    ensures id.Some? && id.value.referenceAt0.Some? && id.value.referenceAt0.value.Multi? ==>
              var targets := id.value.referenceAt0.value.targets;
              && r.Returned?
              && ((forall i :: !FirstClassAt(targets, i)) ==> r.value == None)
              && (forall i :: FirstClassAt(targets, i) ==> r.value == AsHaxeClass(targets[i]))
  {
    if id.None? {
      return Returned(None);
    }
    var found := id.value.referenceAt0;
    var resolved: Option<Node> := None;
    if found.Some? && found.value.Multi? {
      var targets := found.value.targets;
      for i := 0 to |targets|
        invariant resolved == None
        invariant forall j :: 0 <= j < i ==> !IsPsiClassTarget(targets[j])
      {
        var target := targets[i];
        if IsPsiClassTarget(target) {
          resolved := target;
          assert FirstClassAt(targets, i);
          FirstClassAtUnique(targets, i);
          break;
        }
      }
    } else {
      if found.None? {
        return Threw(NullPointerException);
      }
      resolved := found.value.target;
    }
    r := Returned(AsHaxeClass(resolved));
  }

  /** At most one candidate is the first class-like one. */
  lemma FirstClassAtUnique(targets: seq<Option<Node>>, i: int)
    requires FirstClassAt(targets, i)
    ensures forall j :: FirstClassAt(targets, j) ==> j == i
  {
  }

  /** The choice depends only on the candidates up to the chosen one: later ones can be anything. */
  lemma FirstClassAtIgnoresLater(targets: seq<Option<Node>>, i: int, later: seq<Option<Node>>)
    requires FirstClassAt(targets, i)
    ensures FirstClassAt(targets[..i + 1] + later, i)
  {
  }

  // ---------------------------------------------------------------------
  // getClassList
  // ---------------------------------------------------------------------

  /** The HaxeClass elements among `children`, in their order. */
  function ClassesIn(children: seq<Node>): (classes: seq<Node>)
    ensures |classes| <= |children|
    ensures forall c :: c in classes <==> c in children && c.isHaxeClass
    decreases |children|
  {
    if children == [] then []
    else
      var last := children[|children| - 1];
      ClassesIn(children[..|children| - 1]) + (if last.isHaxeClass then [last] else [])
  }

  /** The positions of the HaxeClass elements among `children`, ascending. */
  ghost function ClassIndices(children: seq<Node>): seq<nat>
    decreases |children|
  {
    if children == [] then []
    else
      var n := |children| - 1;
      ClassIndices(children[..n]) + (if children[n].isHaxeClass then [n] else [])
  }

  /**
   * ClassesIn keeps exactly the HaxeClass children, in child order: its k-th
   * element is the child at the k-th HaxeClass position, these positions
   * ascend, and every HaxeClass position is among them.
   */
  lemma ClassesInPreservesOrder(children: seq<Node>)
    ensures |ClassIndices(children)| == |ClassesIn(children)|
    ensures forall k :: 0 <= k < |ClassIndices(children)| ==>
              && ClassIndices(children)[k] < |children|
              && children[ClassIndices(children)[k]] == ClassesIn(children)[k]
    ensures forall k, l :: 0 <= k < l < |ClassIndices(children)| ==>
              ClassIndices(children)[k] < ClassIndices(children)[l]
    ensures forall i :: 0 <= i < |children| && children[i].isHaxeClass ==> i in ClassIndices(children)
  {
    ClassIndicesSelect(children);
    ClassIndicesAscend(children);
    ClassIndicesCover(children);
  }

  /** The k-th HaxeClass position holds the k-th listed class. */
  lemma {:induction false} ClassIndicesSelect(children: seq<Node>)
    ensures |ClassIndices(children)| == |ClassesIn(children)|
    ensures forall k :: 0 <= k < |ClassIndices(children)| ==>
              && ClassIndices(children)[k] < |children|
              && children[ClassIndices(children)[k]] == ClassesIn(children)[k]
    decreases |children|
  {
    if children != [] {
      var n := |children| - 1;
      var init := children[..n];
      ClassIndicesSelect(init);
      var idx, idx0 := ClassIndices(children), ClassIndices(init);
      var cl, cl0 := ClassesIn(children), ClassesIn(init);
      assert idx == idx0 + (if children[n].isHaxeClass then [n] else []);
      assert cl == cl0 + (if children[n].isHaxeClass then [children[n]] else []);
      forall k | 0 <= k < |idx| ensures idx[k] < |children| && children[idx[k]] == cl[k] {
        if k < |idx0| {
          assert idx[k] == idx0[k] && cl[k] == cl0[k];
          assert init[idx0[k]] == children[idx0[k]];
        }
      }
    }
  }

  /** The HaxeClass positions strictly ascend and lie below the child count. */
  lemma {:induction false} ClassIndicesAscend(children: seq<Node>)
    ensures forall k :: 0 <= k < |ClassIndices(children)| ==> ClassIndices(children)[k] < |children|
    ensures forall k, l :: 0 <= k < l < |ClassIndices(children)| ==>
              ClassIndices(children)[k] < ClassIndices(children)[l]
    decreases |children|
  {
    if children != [] {
      var n := |children| - 1;
      ClassIndicesAscend(children[..n]);
      var idx, idx0 := ClassIndices(children), ClassIndices(children[..n]);
      assert idx == idx0 + (if children[n].isHaxeClass then [n] else []);
      assert forall k :: 0 <= k < |idx0| ==> idx[k] == idx0[k];
    }
  }

  /** Every HaxeClass child's position is among the HaxeClass positions. */
  lemma {:induction false} ClassIndicesCover(children: seq<Node>)
    ensures forall i :: 0 <= i < |children| && children[i].isHaxeClass ==> i in ClassIndices(children)
    decreases |children|
  {
    if children != [] {
      var n := |children| - 1;
      var init := children[..n];
      ClassIndicesCover(init);
      var idx, idx0 := ClassIndices(children), ClassIndices(init);
      assert idx == idx0 + (if children[n].isHaxeClass then [n] else []);
      forall i | 0 <= i < |children| && children[i].isHaxeClass ensures i in idx {
        if i < n {
          assert init[i] == children[i];
          assert i in idx0;
        }
      }
    }
  }

  /**
   * getClassList: the classes implemented in a file, i.e. its direct children
   * that are HaxeClass elements, in child order (nested classes are not
   * children of the file, so they are not included).
   */
  method GetClassList(children: seq<Node>) returns (classes: seq<Node>)
    ensures classes == ClassesIn(children)
    ensures |classes| <= |children|
    ensures forall k :: 0 <= k < |classes| ==> classes[k] in children && classes[k].isHaxeClass
  {
    classes := [];
    for i := 0 to |children|
      invariant classes == ClassesIn(children[..i])
    {
      var child := children[i];
      assert children[..i + 1][..i] == children[..i];
      if child.isHaxeClass {
        classes := classes + [child];
      }
    }
    assert children[..|children|] == children;
  }

  // ---------------------------------------------------------------------
  // The parent walks
  // ---------------------------------------------------------------------

  /** An element the containing-class walk stops at and returns. */
  predicate Accepted(n: Node, allowAnonymous: bool) {
    n.isAbstractHaxePsiClass && (allowAnonymous || !n.isAnonymous)
  }

  /**
   * The walk of getContainingClass from `element` upward: null at a HaxeFile,
   * the first AbstractHaxePsiClass that is allowed (not anonymous, unless
   * anonymous classes are allowed), null when the chain ends.
   */
  function NearestClass(element: Option<Node>, allowAnonymous: bool): (r: Option<Node>)
    ensures r.Some? ==> element.Some? && r.value in AncestorsOrSelf(element.value)
    ensures r.Some? ==> !r.value.isHaxeFile && Accepted(r.value, allowAnonymous)
    decreases element
  {
    match element
    case None => None
    case Some(n) =>
      if n.isHaxeFile then None
      else if Accepted(n, allowAnonymous) then element
      else NearestClass(n.parent, allowAnonymous)
  }

  /** Position k of the chain holds the class the walk returns: no file and no accepted class before it. */
  ghost predicate NearestClassAt(chain: seq<Node>, k: int, allowAnonymous: bool) {
    && 0 <= k < |chain|
    && !chain[k].isHaxeFile && Accepted(chain[k], allowAnonymous)
    && forall j :: 0 <= j < k ==> !chain[j].isHaxeFile && !Accepted(chain[j], allowAnonymous)
  }

  /**
   * The walk finds a class exactly when some ancestor-or-self is an accepted
   * class with no file and no accepted class below it, and then it returns
   * that nearest one.
   */
  lemma {:induction false} NearestClassCharacterized(n: Node, allowAnonymous: bool)
    ensures NearestClass(Some(n), allowAnonymous).Some? <==>
              exists k :: NearestClassAt(AncestorsOrSelf(n), k, allowAnonymous)
    ensures forall k :: NearestClassAt(AncestorsOrSelf(n), k, allowAnonymous) ==>
              NearestClass(Some(n), allowAnonymous) == Some(AncestorsOrSelf(n)[k])
    decreases n
  {
    var chain := AncestorsOrSelf(n);
    if n.isHaxeFile || Accepted(n, allowAnonymous) {
      forall k | NearestClassAt(chain, k, allowAnonymous) ensures k == 0 {
        NearestClassAtStopsAtHead(chain, k, allowAnonymous);
      }
      if !n.isHaxeFile {
        assert NearestClassAt(chain, 0, allowAnonymous);
      }
    } else if n.parent.None? {
      assert chain == [n];
    } else {
      var tail := AncestorsOrSelf(n.parent.value);
      NearestClassCharacterized(n.parent.value, allowAnonymous);
      assert chain == [n] + tail;
      NearestClassAtShift(n, tail, allowAnonymous);
      if exists k :: NearestClassAt(chain, k, allowAnonymous) {
        var k :| NearestClassAt(chain, k, allowAnonymous);
        assert NearestClassAt(tail, k - 1, allowAnonymous);
      }
      if exists k :: NearestClassAt(tail, k, allowAnonymous) {
        var k :| NearestClassAt(tail, k, allowAnonymous);
        assert NearestClassAt(chain, k + 1, allowAnonymous);
      }
      assert NearestClass(Some(n), allowAnonymous).Some? <==> exists k :: NearestClassAt(AncestorsOrSelf(n), k, allowAnonymous);
      forall k | NearestClassAt(chain, k, allowAnonymous)
        ensures NearestClass(Some(n), allowAnonymous) == Some(chain[k])
      {
        assert NearestClassAt(tail, k - 1, allowAnonymous);
      }
    }
  }

  /** A chain whose head is a file or an accepted class has its nearest class, if any, at the head. */
  lemma NearestClassAtStopsAtHead(chain: seq<Node>, k: int, allowAnonymous: bool)
    requires chain != [] && (chain[0].isHaxeFile || Accepted(chain[0], allowAnonymous))
    requires NearestClassAt(chain, k, allowAnonymous)
    ensures k == 0
  {
  }

  /** Below an element the walk passes, the nearest class of the chain is the nearest class of the rest, one place up. */
  lemma NearestClassAtShift(n: Node, tail: seq<Node>, allowAnonymous: bool)
    requires !n.isHaxeFile && !Accepted(n, allowAnonymous)
    ensures forall k :: NearestClassAt([n] + tail, k, allowAnonymous) <==> 1 <= k && NearestClassAt(tail, k - 1, allowAnonymous)
  {
    var chain := [n] + tail;
    forall k | 1 <= k <= |tail|
      ensures NearestClassAt(chain, k, allowAnonymous) <==> NearestClassAt(tail, k - 1, allowAnonymous)
    {
      if NearestClassAt(tail, k - 1, allowAnonymous) {
        forall j | 0 <= j < k ensures !chain[j].isHaxeFile && !Accepted(chain[j], allowAnonymous) {
          if j > 0 {
            assert chain[j] == tail[j - 1];
          }
        }
      }
      if NearestClassAt(chain, k, allowAnonymous) {
        forall j | 0 <= j < k - 1 ensures !tail[j].isHaxeFile && !Accepted(tail[j], allowAnonymous) {
          assert chain[j + 1] == tail[j];
        }
        assert chain[k] == tail[k - 1];
      }
    }
  }

  /**
   * Allowing anonymous classes changes the walk's answer only by returning an
   * anonymous class where the stricter walk goes on past it.
   */
  lemma {:induction false} AllowingAnonymousOnlyAddsAnonymous(element: Option<Node>)
    ensures NearestClass(element, true) != NearestClass(element, false) ==>
              NearestClass(element, true).Some? && NearestClass(element, true).value.isAnonymous
    ensures NearestClass(element, true) != NearestClass(element, false) ==>
              NearestClass(element, false) == NearestClass(NearestClass(element, true).value.parent, false)
    decreases element
  {
    match element
    case None =>
    case Some(n) =>
      if !n.isHaxeFile && !Accepted(n, false) && !Accepted(n, true) {
        AllowingAnonymousOnlyAddsAnonymous(n.parent);
      }
  }

  /**
   * The walk of getContainingFile from `element` upward: the first
   * HaxeFile, or null when the chain ends.
   */
  function NearestFile(element: Option<Node>): (r: Option<Node>)
    ensures r.Some? ==> element.Some? && r.value in AncestorsOrSelf(element.value) && r.value.isHaxeFile
    decreases element
  {
    match element
    case None => None
    case Some(n) => if n.isHaxeFile then element else NearestFile(n.parent)
  }

  /** Position k of the chain holds the nearest HaxeFile. */
  ghost predicate NearestFileAt(chain: seq<Node>, k: int) {
    && 0 <= k < |chain|
    && chain[k].isHaxeFile
    && forall j :: 0 <= j < k ==> !chain[j].isHaxeFile
  }

  /** The file walk returns the nearest HaxeFile on the ancestor-or-self chain, and null when there is none. */
  lemma {:induction false} NearestFileCharacterized(n: Node)
    ensures NearestFile(Some(n)).Some? <==> exists k :: NearestFileAt(AncestorsOrSelf(n), k)
    ensures forall k :: NearestFileAt(AncestorsOrSelf(n), k) ==> NearestFile(Some(n)) == Some(AncestorsOrSelf(n)[k])
    decreases n
  {
    var chain := AncestorsOrSelf(n);
    if n.isHaxeFile {
      assert NearestFileAt(chain, 0);
    } else if n.parent.None? {
      assert chain == [n];
      assert forall k :: !NearestFileAt(chain, k);
    } else {
      var tail := AncestorsOrSelf(n.parent.value);
      NearestFileCharacterized(n.parent.value);
      assert chain == [n] + tail;
      NearestFileAtShift(n, tail);
      if exists k :: NearestFileAt(chain, k) {
        var k :| NearestFileAt(chain, k);
        assert NearestFileAt(tail, k - 1);
      }
      if exists k :: NearestFileAt(tail, k) {
        var k :| NearestFileAt(tail, k);
        assert NearestFileAt(chain, k + 1);
      }
      assert NearestFile(Some(n)).Some? <==> exists k :: NearestFileAt(AncestorsOrSelf(n), k);
      forall k | NearestFileAt(chain, k) ensures NearestFile(Some(n)) == Some(chain[k]) {
        assert NearestFileAt(tail, k - 1);
      }
    }
  }

  /** Below an element that is not a file, the nearest file of the chain is the nearest file of the rest, one place up. */
  lemma NearestFileAtShift(n: Node, tail: seq<Node>)
    requires !n.isHaxeFile
    ensures forall k :: NearestFileAt([n] + tail, k) <==> 1 <= k && NearestFileAt(tail, k - 1)
  {
    var chain := [n] + tail;
    forall k | 1 <= k <= |tail| ensures NearestFileAt(chain, k) <==> NearestFileAt(tail, k - 1) {
      if NearestFileAt(tail, k - 1) {
        forall j | 0 <= j < k ensures !chain[j].isHaxeFile {
          if j > 0 {
            assert chain[j] == tail[j - 1];
          }
        }
      }
      if NearestFileAt(chain, k) {
        forall j | 0 <= j < k - 1 ensures !tail[j].isHaxeFile {
          assert chain[j + 1] == tail[j];
        }
        assert chain[k] == tail[k - 1];
      }
    }
  }

  /** In a tree whose only file is its root, the file walk returns that root. */
  lemma {:induction false} NearestFileIsRoot(n: Node)
    requires Root(n).isHaxeFile
    requires forall k :: 0 <= k < |AncestorsOrSelf(n)| - 1 ==> !AncestorsOrSelf(n)[k].isHaxeFile
    ensures NearestFile(Some(n)) == Some(Root(n))
    decreases n
  {
    match n.parent
    case None =>
    case Some(p) =>
      var chain := AncestorsOrSelf(n);
      assert chain == [n] + AncestorsOrSelf(p);
      assert !chain[0].isHaxeFile;
      assert forall k :: 0 <= k < |AncestorsOrSelf(p)| - 1 ==> AncestorsOrSelf(p)[k] == chain[k + 1];
      NearestFileIsRoot(p);
  }

  /** The class the class walk finds lies in the same file as the element the walk started from. */
  lemma {:induction false} NearestClassSharesFile(element: Option<Node>, allowAnonymous: bool)
    requires NearestClass(element, allowAnonymous).Some?
    ensures NearestFile(NearestClass(element, allowAnonymous)) == NearestFile(element)
    decreases element
  {
    var n := element.value;
    if !Accepted(n, allowAnonymous) {
      NearestClassSharesFile(n.parent, allowAnonymous);
    }
  }

  // ---------------------------------------------------------------------
  // The context lookups
  // ---------------------------------------------------------------------

  /** `targetElement instanceof AbstractHaxePsiClass` (false for null). */
  predicate IsAbstractClass(e: Option<Node>) {
    e.Some? && e.value.isAbstractHaxePsiClass
  }

  /** The leaf at the caret in the editor's file, or null when the document has no PSI file. */
  function CaretElement(editor: Editor): (e: Option<Node>)
    ensures editor.psiFile.None? ==> e.None?
    ensures editor.psiFile.Some? ==> e == editor.psiFile.value.FindElementAt(editor.caretOffset)
    ensures e.Some? ==> editor.caretOffset in editor.psiFile.value.leaves &&
                        e.value == editor.psiFile.value.leaves[editor.caretOffset]
  {
    match editor.psiFile
    case None => None
    case Some(file) => file.FindElementAt(editor.caretOffset)
  }

  /**
   * getPsiElement: null without a project; with an editor, null when its
   * document has no PSI file and otherwise the leaf element at the caret
   * offset; without an editor, the PSI_ELEMENT of the context as it is.
   */
  function GetPsiElement(context: DataContext): (e: Option<Node>)
    ensures context.project.None? ==> e.None?
    ensures context.project.Some? && context.editor.Some? && context.editor.value.psiFile.None? ==> e.None?
    ensures context.project.Some? && context.editor.Some? && context.editor.value.psiFile.Some? ==>
              e == context.editor.value.psiFile.value.FindElementAt(context.editor.value.caretOffset)
    ensures context.project.Some? && context.editor.None? ==> e == context.psiElement
  {
    if context.project.None? then None
    else
      match context.editor
      case Some(editor) => CaretElement(editor)
      case None => context.psiElement
  }

  /** What getContainingClass returns, as a function of the context. */
  ghost function ContainingClass(context: DataContext, allowAnonymous: bool): (r: Option<Node>)
    ensures r.Some? ==> r.value.isAbstractHaxePsiClass
    ensures r.Some? && context.editor.None? ==> r == context.psiElement
    ensures r.Some? && context.editor.Some? && r != context.editor.value.targetElement ==>
              CaretElement(context.editor.value).Some? && r.value in AncestorsOrSelf(CaretElement(context.editor.value).value)
  {
    if context.project.None? then None
    else
      match context.editor
      case None => if IsAbstractClass(context.psiElement) then context.psiElement else None
      case Some(editor) =>
        if editor.psiFile.None? then None
        else if IsAbstractClass(editor.targetElement) then editor.targetElement
        else NearestClass(CaretElement(editor), allowAnonymous)
  }

  /**
   * getContainingClass: the class containing the focused element. A target
   * element that is a class is returned at once; otherwise the walk starts at
   * the leaf at the caret. Without an editor, the PSI_ELEMENT counts only if
   * it is a class itself.
   */
  method GetContainingClass(context: DataContext, allowAnonymous: bool) returns (r: Option<Node>)
    ensures r == ContainingClass(context, allowAnonymous)
    ensures r.Some? ==> r.value.isAbstractHaxePsiClass
  {
    if context.project.None? {
      return None;
    }
    if context.editor.Some? {
      var editor := context.editor.value;
      if editor.psiFile.None? {
        return None;
      }
      var file := editor.psiFile.value;
      var targetElement := editor.targetElement;
      if IsAbstractClass(targetElement) {
        return targetElement;
      }
      var offset := editor.caretOffset;
      var element := file.FindElementAt(offset);
      while element.Some?
        invariant NearestClass(element, allowAnonymous) == NearestClass(CaretElement(editor), allowAnonymous)
        decreases element
      {
        var n := element.value;
        if n.isHaxeFile {
          return None;
        }
        if n.isAbstractHaxePsiClass {
          if allowAnonymous || !n.isAnonymous {
            return element;
          }
        }
        element := n.parent;
      }
      return None;
    } else {
      var element := context.psiElement;
      r := if IsAbstractClass(element) then element else None;
    }
  }

  /**
   * The context rules of getContainingClass: no project or no PSI file gives
   * null; a class target element wins with no anonymous filter; with an
   * editor otherwise the answer is the walk from what getPsiElement returns;
   * without an editor the PSI_ELEMENT is returned only if it is a class.
   * Only the walk applies the anonymous-class filter.
   */
  lemma ContainingClassRules(context: DataContext, allowAnonymous: bool)
    ensures context.project.None? ==> ContainingClass(context, allowAnonymous) == None
    ensures context.project.Some? && context.editor.Some? && context.editor.value.psiFile.None? ==>
              ContainingClass(context, allowAnonymous) == None
    ensures context.project.Some? && context.editor.Some? && context.editor.value.psiFile.Some? &&
            IsAbstractClass(context.editor.value.targetElement) ==>
              ContainingClass(context, allowAnonymous) == context.editor.value.targetElement
    ensures context.project.Some? && context.editor.Some? && !IsAbstractClass(context.editor.value.targetElement) ==>
              ContainingClass(context, allowAnonymous) == NearestClass(GetPsiElement(context), allowAnonymous)
    ensures context.project.Some? && context.editor.None? ==>
              ContainingClass(context, allowAnonymous) == (if IsAbstractClass(GetPsiElement(context)) then GetPsiElement(context) else None)
    ensures !allowAnonymous && context.editor.Some? && !IsAbstractClass(context.editor.value.targetElement) &&
            ContainingClass(context, allowAnonymous).Some? ==>
              !ContainingClass(context, allowAnonymous).value.isAnonymous
  {
  }

  /** getContainingFile: the nearest HaxeFile on the ancestor-or-self chain of getPsiElement's element. */
  method GetContainingFile(context: DataContext) returns (r: Option<Node>)
    ensures r == NearestFile(GetPsiElement(context))
    ensures r.Some? ==> r.value.isHaxeFile
  {
    var element := GetPsiElement(context);
    while element.Some?
      invariant NearestFile(element) == NearestFile(GetPsiElement(context))
      decreases element
    {
      if element.value.isHaxeFile {
        return element;
      }
      element := element.value.parent;
    }
    return None;
  }

  /** getReferencedElement: the referenced element at the editor's caret; null without an editor. */
  function GetReferencedElement(context: DataContext): (e: Option<Node>)
    ensures context.editor.None? ==> e.None?
    ensures context.editor.Some? ==> e == context.editor.value.referencedElement
  {
    match context.editor
    case None => None
    case Some(editor) => editor.referencedElement
  }

  /**
   * getTargetMethod: a method view exactly when an editor is present, it has
   * a referenced element, and that element's parent is of component type
   * METHOD; the view wraps the parent, not the element. A null parent has no
   * component type.
   */
  function GetTargetMethod(context: DataContext): (m: Option<HaxePsiMethod>)
    ensures m.Some? <==>
              && context.editor.Some?
              && context.editor.value.referencedElement.Some?
              && context.editor.value.referencedElement.value.parent.Some?
              && context.editor.value.referencedElement.value.parent.value.componentType == Some(Method)
    ensures m.Some? ==> m.value.declaration == context.editor.value.referencedElement.value.parent.value
  {
    var logicalElement := GetReferencedElement(context);
    if logicalElement.None? then None
    else
      var parent := logicalElement.value.parent;
      var ctype := if parent.Some? then parent.value.componentType else None;
      if ctype == Some(Method) then Some(HaxePsiMethod(parent.value)) else None
  }

  /**
   * Only the referenced element's parent is consulted: two contexts whose
   * referenced elements have the same parent get the same method, whatever
   * the elements themselves are.
   */
  lemma TargetMethodDependsOnlyOnParent(c1: DataContext, c2: DataContext)
    requires GetReferencedElement(c1).Some? && GetReferencedElement(c2).Some?
    requires GetReferencedElement(c1).value.parent == GetReferencedElement(c2).value.parent
    ensures GetTargetMethod(c1) == GetTargetMethod(c2)
  {
  }

  /** resolveClassReference: null when resolveHaxeClass() is null, else the class the result carries. */
  function ResolveClassReference(element: HaxeReference): (c: Option<Node>)
    ensures element.classResolveResult.None? ==> c.None?
    ensures element.classResolveResult.Some? ==> c == element.classResolveResult.value.haxeClass
  {
    match element.classResolveResult
    case None => None
    case Some(result) => result.haxeClass
  }
}
