/** MyTableAnnotationProcessor: the compile-time check that @MyTable and MyTableEntity are
    bound both ways. Elements, the type checker's assignability answer and the Messager are
    represented by what the processor reads from them and what it emits. */
module AnnotationProcessor {
  import opened Wrappers

  /** An element of the round as the processor sees it. `isType` is `instanceof
      TypeElement`; `assignable` is Types.isAssignable to MyTableEntity. */
  datatype Element = Element(
    qualifiedName: string,
    isType: bool,
    isInterface: bool,
    isAbstract: bool,
    hasMyTable: bool,
    assignable: bool)

  /** One round: whether it is the final one, the elements carrying @MyTable and the root
      elements. */
  datatype Round = Round(processingOver: bool, annotatedWithMyTable: seq<Element>, rootElements: seq<Element>)

  /** A diagnostic the Messager prints; the processor only prints errors. */
  datatype Kind = Error
  datatype Diagnostic = Diagnostic(kind: Kind, message: string, element: Element)

  function Rule1Message(e: Element): string
  {
    "[@MyTable 规范] " + e.qualifiedName + " 标注了 @MyTable 但未实现 MyTableEntity 接口"
  }

  function Rule2Message(e: Element): string
  {
    "[@MyTable 规范] " + e.qualifiedName + " 实现了 MyTableEntity 接口但未标注 @MyTable 注解"
  }

  /** Rule-1 is broken by a type carrying @MyTable that is not a MyTableEntity. */
  predicate BreaksRule1(e: Element)
  {
    e.isType && !e.assignable
  }

  /** Rule-2 is broken by a concrete class that is a MyTableEntity without @MyTable. */
  predicate BreaksRule2(e: Element)
  {
    e.isType && !e.isInterface && !e.isAbstract && e.assignable && !e.hasMyTable
  }

  /** The Rule-1 errors for a list of annotated elements, in order. */
  function Rule1Errors(elements: seq<Element>): (r: seq<Diagnostic>)
    ensures |r| <= |elements|
  {
    if |elements| == 0 then []
    else
      var n := |elements|;
      var last := elements[n - 1];
      var before := Rule1Errors(elements[..n - 1]);
      if BreaksRule1(last) then before + [Diagnostic(Error, Rule1Message(last), last)] else before
  }

  /** Rule-1 reports exactly the elements that break it, each once per occurrence, as errors. */
  lemma {:induction false} Rule1ErrorsExact(elements: seq<Element>)
    ensures forall d :: d in Rule1Errors(elements) ==>
      d.kind == Error && d.element in elements && BreaksRule1(d.element) && d.message == Rule1Message(d.element)
    ensures forall e :: e in elements && BreaksRule1(e) ==> Diagnostic(Error, Rule1Message(e), e) in Rule1Errors(elements)
  {
    if |elements| > 0 {
      var n := |elements|;
      Rule1ErrorsExact(elements[..n - 1]);
      assert forall e :: e in elements ==> e in elements[..n - 1] || e == elements[n - 1];
    }
  }


  /** The Rule-2 errors for a list of root elements, in order. */
  function Rule2Errors(elements: seq<Element>): (r: seq<Diagnostic>)
    ensures |r| <= |elements|
  {
    if |elements| == 0 then []
    else
      var n := |elements|;
      var last := elements[n - 1];
      var before := Rule2Errors(elements[..n - 1]);
      if BreaksRule2(last) then before + [Diagnostic(Error, Rule2Message(last), last)] else before
  }

  /** Rule-2 reports exactly the elements that break it, each once per occurrence, as errors. */
  lemma {:induction false} Rule2ErrorsExact(elements: seq<Element>)
    ensures forall d :: d in Rule2Errors(elements) ==>
      d.kind == Error && d.element in elements && BreaksRule2(d.element) && d.message == Rule2Message(d.element)
    ensures forall e :: e in elements && BreaksRule2(e) ==> Diagnostic(Error, Rule2Message(e), e) in Rule2Errors(elements)
  {
    if |elements| > 0 {
      var n := |elements|;
      Rule2ErrorsExact(elements[..n - 1]);
      assert forall e :: e in elements ==> e in elements[..n - 1] || e == elements[n - 1];
    }
  }


  lemma Rule1Snoc(elements: seq<Element>, i: nat)
    requires i < |elements|
    ensures Rule1Errors(elements[..i + 1]) == Rule1Errors(elements[..i])
      + (if BreaksRule1(elements[i]) then [Diagnostic(Error, Rule1Message(elements[i]), elements[i])] else [])
  {
    assert elements[..i + 1][..i] == elements[..i];
  }

  lemma Rule2Snoc(elements: seq<Element>, i: nat)
    requires i < |elements|
    ensures Rule2Errors(elements[..i + 1]) == Rule2Errors(elements[..i])
      + (if BreaksRule2(elements[i]) then [Diagnostic(Error, Rule2Message(elements[i]), elements[i])] else [])
  {
    assert elements[..i + 1][..i] == elements[..i];
  }

  /** What process prints in a round: nothing in the final round or when MyTableEntity is not
      on the class path, otherwise the Rule-1 errors, then the Rule-2 errors. */
  function RoundDiagnostics(entityResolved: bool, round: Round): seq<Diagnostic>
  {
    if round.processingOver || !entityResolved then []
    else Rule1Errors(round.annotatedWithMyTable) + Rule2Errors(round.rootElements)
  }

  /** A round passes without errors exactly when every annotated type is a MyTableEntity and
      every concrete MyTableEntity root type carries @MyTable (or the round is skipped). */
  lemma NoErrorsIffBound(entityResolved: bool, round: Round)
    ensures RoundDiagnostics(entityResolved, round) == [] <==>
      round.processingOver || !entityResolved ||
      ((forall e :: e in round.annotatedWithMyTable ==> !BreaksRule1(e))
       && (forall e :: e in round.rootElements ==> !BreaksRule2(e)))
  {
    if !round.processingOver && entityResolved {
      Rule1ErrorsExact(round.annotatedWithMyTable);
      Rule2ErrorsExact(round.rootElements);
      var r1 := Rule1Errors(round.annotatedWithMyTable);
      var r2 := Rule2Errors(round.rootElements);
      if r1 + r2 != [] {
        assert |r1| > 0 || |r2| > 0;
        if |r1| > 0 {
          assert r1[0] in r1;
        } else {
          assert r2[0] in r2;
        }
      }
    }
  }

  /** Interfaces, abstract classes and non-type elements never get a Rule-2 error. */
  lemma Rule2Exemptions(elements: seq<Element>, e: Element)
    requires !e.isType || e.isInterface || e.isAbstract
    ensures forall d :: d in Rule2Errors(elements) ==> d.element != e
  {
    Rule2ErrorsExact(elements);
  }

  /** The processor with the entity type init resolved (None when MyTableEntity is not on the
      class path) and the diagnostics printed so far. */
  class MyTableAnnotationProcessor {
    var entityResolved: bool
    var printed: seq<Diagnostic>

    constructor ()
      ensures !entityResolved && printed == []
    {
      entityResolved := false;
      printed := [];
    }

    /** init: looks up MyTableEntity by its qualified name. */
    method Init(entityOnClassPath: bool)
      modifies this
      ensures entityResolved == (old(entityResolved) || entityOnClassPath) && printed == old(printed)
    {
      if entityOnClassPath {
        entityResolved := true;
      }
    }

    /** process: prints the round's diagnostics and never claims the annotations. */
    method Process(round: Round) returns (claimed: bool)
      modifies this
      ensures !claimed
      ensures entityResolved == old(entityResolved)
      ensures printed == old(printed) + RoundDiagnostics(entityResolved, round)
    {
      if round.processingOver || !entityResolved {
        assert printed + [] == printed;
        return false;
      }
      CheckRule1(round.annotatedWithMyTable);
      CheckRule2(round.rootElements);
      return false;
    }

    /** Rule-1 loop: an error for every annotated type that is not a MyTableEntity. */
    method CheckRule1(annotated: seq<Element>)
      modifies this
      ensures entityResolved == old(entityResolved)
      ensures printed == old(printed) + Rule1Errors(annotated)
    {
      ghost var before := printed;
      var i := 0;
      while i < |annotated|
        invariant 0 <= i <= |annotated|
        invariant entityResolved == old(entityResolved)
        invariant printed == before + Rule1Errors(annotated[..i])
      {
        var element := annotated[i];
        Rule1Snoc(annotated, i);
        if element.isType && !element.assignable {
          printed := printed + [Diagnostic(Error, Rule1Message(element), element)];
        }
        i := i + 1;
      }
      assert annotated[..i] == annotated;
    }

    /** Rule-2 loop: an error for every concrete MyTableEntity root type without @MyTable. */
    method CheckRule2(roots: seq<Element>)
      modifies this
      ensures entityResolved == old(entityResolved)
      ensures printed == old(printed) + Rule2Errors(roots)
    {
      ghost var before := printed;
      var i := 0;
      while i < |roots|
        invariant 0 <= i <= |roots|
        invariant entityResolved == old(entityResolved)
        invariant printed == before + Rule2Errors(roots[..i])
      {
        var element := roots[i];
        Rule2Snoc(roots, i);
        if element.isType && !element.isInterface && !element.isAbstract && element.assignable
           && !element.hasMyTable {
          printed := printed + [Diagnostic(Error, Rule2Message(element), element)];
        }
        i := i + 1;
      }
      assert roots[..i] == roots;
    }
  }
}
