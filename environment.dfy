/**
 * Chained frames of bindings and the environment that holds the innermost
 * one (src/scripting/environment.rs).  A frame's parent is held by value:
 * the sharing of frames through reference counting is not modelled.
 */
module Environments {
  import opened Wrappers
  import opened Values

  datatype Frame = Frame(bindings: map<string, Value>, parent: Option<Frame>)
  {
    /** `Frame::lookup`: this frame first, then the parent chain. */
    function Lookup(id: string): (r: Result<Value, InterpreterError>)
      ensures r.Err? ==> r.error == Unbound(id)
    {
      if id in bindings then Ok(bindings[id])
      else
        match parent
        case None => Err(Unbound(id))
        case Some(p) => p.Lookup(id)
    }

    /** `Frame::bind`: insert into this frame's bindings. */
    function Bind(id: string, value: Value): (f: Frame)
      ensures f.parent == parent && id in f.bindings
    {
      Frame(bindings[id := value], parent)
    }

    /**
     * What is visible from this frame: the parent's view, overridden by
     * this frame's own bindings.
     */
    function Visible(): map<string, Value>
    {
      match parent
      case None => bindings
      case Some(p) => p.Visible() + bindings
    }
  }

  /** `Frame::new`. */
  function NewFrame(parent: Option<Frame>): (f: Frame)
    ensures f.bindings == map[] && f.parent == parent
  {
    Frame(map[], parent)
  }

  /**
   * A lookup succeeds exactly for the identifiers some frame of the chain
   * binds, and yields the binding of the nearest such frame.
   */
  lemma {:induction false} LookupVisible(f: Frame, id: string)
    ensures f.Lookup(id) == if id in f.Visible() then Ok(f.Visible()[id]) else Err(Unbound(id))
  {
    match f.parent
    case None =>
    case Some(p) =>
      LookupVisible(p, id);
  }

  /** In a fresh root frame every lookup fails. */
  lemma LookupFresh(id: string)
    ensures NewFrame(None).Lookup(id) == Err(Unbound(id))
  {
  }

  /** After a bind, the identifier yields the bound value and every other lookup is unchanged. */
  lemma LookupBind(f: Frame, id: string, value: Value, other: string)
    ensures f.Bind(id, value).Lookup(id) == Ok(value)
    ensures other != id ==> f.Bind(id, value).Lookup(other) == f.Lookup(other)
  {
  }

  /** A later bind of the same identifier overwrites the earlier one. */
  lemma BindOverwrites(f: Frame, id: string, v: Value, w: Value)
    ensures f.Bind(id, v).Bind(id, w) == f.Bind(id, w)
  {
  }

  /** A binding in the current frame shadows any binding further up. */
  lemma {:induction false} VisibleShadows(f: Frame, id: string)
    requires id in f.bindings
    ensures id in f.Visible() && f.Visible()[id] == f.bindings[id]
  {
  }

  class Environment {
    /** The innermost frame (`top_frame`). */
    var top: Frame

    /** `Environment::new`: a single frame without bindings or parent. */
    constructor()
      ensures top == NewFrame(None)
    {
      top := NewFrame(None);
    }

    /** `Environment::lookup`. */
    function Lookup(id: string): (r: Result<Value, InterpreterError>)
      reads this
      ensures r == if id in top.Visible() then Ok(top.Visible()[id]) else Err(Unbound(id))
    {
      LookupVisible(top, id);
      top.Lookup(id)
    }

    /** `Environment::bind`. */
    method Bind(id: string, value: Value)
      modifies this
      ensures top == old(top).Bind(id, value)
      ensures Lookup(id) == Ok(value)
      ensures forall other :: other != id ==> Lookup(other) == old(Lookup(other))
    {
      top := top.Bind(id, value);
      LookupBind(old(top), id, value, id);
      forall other | other != id
        ensures Lookup(other) == old(Lookup(other))
      {
        LookupBind(old(top), id, value, other);
      }
    }
  }
}
