/**
 * Constraint wrappers and their recycling pool (impl/ConstraintImpl.java,
 * api/ConstraintFactory.java). A constraint holds an uninterpreted sentence
 * and, separately, a compiled logic tree; only the tree is ever evaluated.
 */
module AgendaConstraint {
  import opened Values
  import opened AgendaLogic

  class ConstraintImpl {
    /** The user's sentence: never compiled, since `compileSentence` is empty. */
    var sentence: seq<Value>
    /** The compiled tree; null until `setConstraint`. */
    var theConstraint: Option<Logic>

    constructor ()
      ensures sentence == [] && theConstraint == None
    {
      sentence := [];
      theConstraint := None;
    }

    /** `eval(tuple)`: false while no tree is set, else the tree's verdict. */
    function Eval(t: Fields): (r: Result<bool>)
      reads this
      ensures theConstraint.None? ==> r == Ok(false)
      ensures r.Err? ==> r.error == NullPointer
    {
      if theConstraint.None? then Ok(false) else AgendaLogic.Eval(theConstraint.value, t)
    }

    /** `clearConstraints()`: empties the sentence and drops the tree. */
    method ClearConstraints()
      modifies this
      ensures sentence == [] && theConstraint == None
      ensures forall t :: Eval(t) == Ok(false)
    {
      sentence := [];
      theConstraint := None;
    }

    /** `setConstraints(sentence)`: stores the sentence; compiling it does nothing. */
    method SetConstraints(s: seq<Value>)
      modifies this
      ensures sentence == s && theConstraint == old(theConstraint)
      ensures forall t :: Eval(t) == old(Eval(t))
    {
      sentence := s;
      CompileSentence();
    }

    /** `compileSentence()`: an empty body. */
    method CompileSentence()
      ensures sentence == old(sentence) && theConstraint == old(theConstraint)
    {
    }

    /** `setConstraint(c)`: the tree evaluated from now on. */
    method SetConstraint(c: Logic)
      modifies this
      ensures sentence == old(sentence) && theConstraint == Some(c)
      ensures forall t :: Eval(t) == AgendaLogic.Eval(c, t)
    {
      theConstraint := Some(c);
    }
  }

  /**
   * The factory's static pool (a `java.util.Stack`), kept as an object of
   * its own; the top of the stack is the last element. Only recycling is
   * live code: `create()` is commented out.
   */
  class ConstraintPool {
    var pool: seq<ConstraintImpl>

    constructor ()
      ensures pool == []
    {
      pool := [];
    }

    /** `recycleConstraint(c)`: clears `c`, then pushes it. */
    method RecycleConstraint(c: ConstraintImpl)
      modifies this, c
      ensures pool == old(pool) + [c]
      ensures c.sentence == [] && c.theConstraint == None
      ensures forall t :: c.Eval(t) == Ok(false)
    {
      c.ClearConstraints();
      pool := pool + [c];
    }
  }
}
