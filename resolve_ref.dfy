/** Reference resolution of src/shared/resolveRef.js: mapping a template
    reference to the keypath it denotes, walking the fragment chain nearest
    first, then the root data, then a parent component. */
module ResolveRef {
  import opened Wrappers
  import opened Keypaths

  /** A value read from a viewmodel: an object or function (with the keys
      that `in` finds on it), a number, any other primitive (null, strings,
      booleans), or undefined. */
  datatype Value = Object(keys: set<string>) | Number(n: int) | Primitive | Undefined

  /** One fragment of the chain: its context keypath, if any, and its index
      references (loop alias name to index). */
  datatype Fragment = Fragment(context: Option<string>, indexRefs: map<string, nat>)

  /** A call `createComponentBinding(component, parent, parentKeypath, childRef)`. */
  datatype Binding = Binding(parentKeypath: string, childRef: string)

  /** The state of one instance as resolution sees it: its viewmodel, the
      component bindings made so far, the own keys of its root data, its
      `isolated` flag and, for a child component, the chain of its host
      fragment (`component.parentFragment`) in the parent's tree. */
  datatype Scope = Scope(viewmodel: map<string, Value>, bindings: seq<Binding>,
                         data: set<string>, isolated: bool, host: seq<Fragment>)

  /** `viewmodel.get(keypath)`: missing keypaths read as undefined. */
  function Get(vm: map<string, Value>, keypath: string): Value
  {
    if keypath in vm then vm[keypath] else Undefined
  }

  /** `ref.split('.')[0]`. */
  function FirstSegment(ref: string): string
  {
    Split(ref)[0]
  }

  /** Position `i` of the chain has a (truthy) context whose value is a
      non-null object or function holding `key`. */
  predicate MatchesAt(chain: seq<Fragment>, vm: map<string, Value>, key: string, i: nat)
    requires i < |chain|
  {
    Truthy(chain[i].context) && Get(vm, chain[i].context.value).Object? &&
    key in Get(vm, chain[i].context.value).keys
  }

  /** The nearest position of the chain that matches. */
  function NearestMatch(chain: seq<Fragment>, vm: map<string, Value>, key: string): (m: Option<nat>)
    ensures m.Some? ==> m.value < |chain| && MatchesAt(chain, vm, key, m.value)
    ensures m.Some? ==> forall j :: 0 <= j < m.value ==> !MatchesAt(chain, vm, key, j)
    ensures m.None? ==> forall j :: 0 <= j < |chain| ==> !MatchesAt(chain, vm, key, j)
  {
    if chain == [] then None
    else if MatchesAt(chain, vm, key, 0) then Some(0)
    else
      var m := NearestMatch(chain[1..], vm, key);
      assert forall j :: 1 <= j < |chain| ==> (MatchesAt(chain, vm, key, j) <==> MatchesAt(chain[1..], vm, key, j - 1));
      if m.Some? then Some(m.value + 1) else None
  }

  /** Some fragment of the chain has a (truthy) context. */
  predicate HasContext(chain: seq<Fragment>)
  {
    exists i :: 0 <= i < |chain| && Truthy(chain[i].context)
  }

  /** The last steps: with no context chain the reference is its own
      keypath; otherwise it is one only if the viewmodel holds a defined
      value there. */
  function Fallback(chain: seq<Fragment>, vm: map<string, Value>, ref: string): Option<string>
  {
    if !HasContext(chain) then Some(ref)
    else if Get(vm, ref) != Undefined then Some(ref)
    else None
  }

  /** `levels[0]` will not look further up: it has no parent or is isolated. */
  predicate IsTopScope(levels: seq<Scope>)
    requires |levels| >= 1
  {
    |levels| == 1 || levels[0].isolated
  }

  /** Resolution of a reference that does not start with `.`, as a function
      of the instance chain (`levels[0]` the resolving instance,
      `levels[k + 1]` the parent of `levels[k]`); it gives the keypath and
      the new states of the instances. */
  function Unrestricted(levels: seq<Scope>, ref: string, chain: seq<Fragment>): (out: (Option<string>, seq<Scope>))
    requires |levels| >= 1
    ensures |out.1| == |levels|
    ensures forall k :: 0 <= k < |levels| ==>
      out.1[k].data == levels[k].data && out.1[k].isolated == levels[k].isolated && out.1[k].host == levels[k].host
    decreases |levels|
  {
    var me := levels[0];
    var key := FirstSegment(ref);
    var m := NearestMatch(chain, me.viewmodel, key);
    if m.Some? then (Some(chain[m.value].context.value + "." + ref), levels)
    else if key in me.data then (Some(ref), levels)
    else if IsTopScope(levels) then (Fallback(chain, me.viewmodel, ref), levels)
    else if |me.host| > 0 && ref in me.host[0].indexRefs then
      (None, [me.(viewmodel := me.viewmodel[ref := Number(me.host[0].indexRefs[ref])])] + levels[1..])
    else
      var up := Unrestricted(levels[1..], ref, me.host);
      var me' := if up.0.Some? && up.0.value != "" then
                   me.(viewmodel := me.viewmodel[ref := Get(up.1[0].viewmodel, up.0.value)],
                       bindings := me.bindings + [Binding(up.0.value, ref)])
                 else me;
      (Fallback(chain, me'.viewmodel, ref), [me'] + up.1)
  }

  /** Nothing but an unrestricted reference is looked up in the scopes. */
  predicate IsUnrestricted(ref: string)
  {
    !(|ref| > 0 && ref[0] == '.')
  }

  /** Full resolution: references starting with `.` are relative to the
      inner context; all others are resolved by Unrestricted. */
  function Resolve(levels: seq<Scope>, ref: string, chain: seq<Fragment>, innerContext: Option<string>): (Result<Option<string>>, seq<Scope>)
    requires |levels| >= 1
  {
    if !IsUnrestricted(ref) then (Ancestor(innerContext, ref), levels)
    else
      var out := Unrestricted(levels, ref, chain);
      (Ok(out.0), out.1)
  }

  /** A reference starting with `.` is relative to the inner context and
      changes no instance. */
  lemma RelativeReference(levels: seq<Scope>, ref: string, chain: seq<Fragment>, innerContext: Option<string>)
    requires |levels| >= 1 && !IsUnrestricted(ref)
    ensures Resolve(levels, ref, chain, innerContext) == (Ancestor(innerContext, ref), levels)
    ensures ref == "." ==> Resolve(levels, ref, chain, innerContext).0 == Ok(innerContext)
  {
  }

  /** The nearest fragment whose context value holds the first segment
      wins: nearer scopes shadow farther ones, and nothing changes. */
  lemma NearestContextWins(levels: seq<Scope>, ref: string, chain: seq<Fragment>, innerContext: Option<string>, i: nat)
    requires |levels| >= 1 && IsUnrestricted(ref)
    requires i < |chain| && MatchesAt(chain, levels[0].viewmodel, FirstSegment(ref), i)
    requires forall j :: 0 <= j < i ==> !MatchesAt(chain, levels[0].viewmodel, FirstSegment(ref), j)
    ensures Resolve(levels, ref, chain, innerContext) == (Ok(Some(chain[i].context.value + "." + ref)), levels)
  {
  }

  /** A fragment without a context is skipped: putting one in front of the
      chain changes neither the keypath nor any instance. */
  lemma ContextlessFragmentSkipped(levels: seq<Scope>, ref: string, f: Fragment, chain: seq<Fragment>)
    requires |levels| >= 1 && !Truthy(f.context)
    ensures Unrestricted(levels, ref, [f] + chain) == Unrestricted(levels, ref, chain)
  {
  }

  /** A context whose value is a primitive (or undefined) never matches:
      in front of a chain that already has a context it changes nothing. */
  lemma PrimitiveContextNeverMatches(levels: seq<Scope>, ref: string, f: Fragment, chain: seq<Fragment>)
    requires |levels| >= 1 && Truthy(f.context)
    requires !Get(levels[0].viewmodel, f.context.value).Object?
    requires HasContext(chain)
    ensures Unrestricted(levels, ref, [f] + chain) == Unrestricted(levels, ref, chain)
  {
  }

  /** With no fragment matching, a first segment that is an own key of the
      root data makes the reference its own keypath. */
  lemma RootDataResolves(levels: seq<Scope>, ref: string, chain: seq<Fragment>, innerContext: Option<string>)
    requires |levels| >= 1 && IsUnrestricted(ref)
    requires forall j :: 0 <= j < |chain| ==> !MatchesAt(chain, levels[0].viewmodel, FirstSegment(ref), j)
    requires FirstSegment(ref) in levels[0].data
    ensures Resolve(levels, ref, chain, innerContext) == (Ok(Some(ref)), levels)
  {
  }

  /** A non-isolated child component, first segment unresolved locally: */
  predicate ConsultsParent(levels: seq<Scope>, ref: string, chain: seq<Fragment>)
    requires |levels| >= 1
  {
    NearestMatch(chain, levels[0].viewmodel, FirstSegment(ref)).None? &&
    FirstSegment(ref) !in levels[0].data && !IsTopScope(levels)
  }

  /** ... whose host fragment has the reference as an index reference. */
  predicate IndexRefCase(levels: seq<Scope>, ref: string, chain: seq<Fragment>)
    requires |levels| >= 1
  {
    ConsultsParent(levels, ref, chain) && |levels[0].host| > 0 && ref in levels[0].host[0].indexRefs
  }

  /** With no fragment having a context, the reference is its own keypath,
      unless the index reference shortcut applies. */
  lemma NoContextChainIsReference(levels: seq<Scope>, ref: string, chain: seq<Fragment>, innerContext: Option<string>)
    requires |levels| >= 1 && IsUnrestricted(ref)
    requires !HasContext(chain) && !IndexRefCase(levels, ref, chain)
    ensures Resolve(levels, ref, chain, innerContext).0 == Ok(Some(ref))
  {
  }

  /** An instance that cannot look further up (top-level or isolated), with
      a context chain and nothing found: the reference is a keypath exactly
      when the viewmodel holds a defined value at it; nothing changes. */
  lemma DefinedValueFallback(levels: seq<Scope>, ref: string, chain: seq<Fragment>, innerContext: Option<string>)
    requires |levels| >= 1 && IsUnrestricted(ref) && IsTopScope(levels) && HasContext(chain)
    requires NearestMatch(chain, levels[0].viewmodel, FirstSegment(ref)).None?
    requires FirstSegment(ref) !in levels[0].data
    ensures Resolve(levels, ref, chain, innerContext).1 == levels
    ensures Resolve(levels, ref, chain, innerContext).0 == Ok(Some(ref)) <==> Get(levels[0].viewmodel, ref) != Undefined
    ensures Resolve(levels, ref, chain, innerContext).0 == Ok(None) <==> Get(levels[0].viewmodel, ref) == Undefined
  {
  }

  /** The index reference shortcut: the child stores the index under the
      reference, the result is undefined, and no other instance changes. */
  lemma IndexRefShortcut(levels: seq<Scope>, ref: string, chain: seq<Fragment>, innerContext: Option<string>)
    requires |levels| >= 1 && IsUnrestricted(ref) && IndexRefCase(levels, ref, chain)
    ensures var out := Resolve(levels, ref, chain, innerContext);
      out.0 == Ok(None) &&
      Get(out.1[0].viewmodel, ref) == Number(levels[0].host[0].indexRefs[ref]) &&
      out.1[0].bindings == levels[0].bindings &&
      out.1[1..] == levels[1..]
  {
  }

  /** Resolution through the parent: when the parent resolves the reference
      to a keypath `k`, the child copies the parent's value at `k` under the
      reference and records a binding to `k`; the child then answers with
      the reference unless it has a context chain and that value is
      undefined. */
  lemma ParentBinding(levels: seq<Scope>, ref: string, chain: seq<Fragment>, innerContext: Option<string>)
    requires |levels| >= 1 && IsUnrestricted(ref)
    requires ConsultsParent(levels, ref, chain) && !IndexRefCase(levels, ref, chain)
    ensures var up := Unrestricted(levels[1..], ref, levels[0].host);
      var out := Resolve(levels, ref, chain, innerContext);
      out.1[1..] == up.1 &&
      (up.0.Some? && up.0.value != "" ==>
        Get(out.1[0].viewmodel, ref) == Get(up.1[0].viewmodel, up.0.value) &&
        out.1[0].bindings == levels[0].bindings + [Binding(up.0.value, ref)] &&
        (out.0 == Ok(Some(ref)) <==> !HasContext(chain) || Get(up.1[0].viewmodel, up.0.value) != Undefined)) &&
      (!(up.0.Some? && up.0.value != "") ==> out.1[0] == levels[0])
  {
  }

  /** Resolution writes nothing but the reference itself into any viewmodel,
      and only adds component bindings. */
  lemma {:induction false} WritesOnlyReference(levels: seq<Scope>, ref: string, chain: seq<Fragment>)
    requires |levels| >= 1
    ensures var out := Unrestricted(levels, ref, chain).1;
      forall k, kp :: 0 <= k < |levels| && kp != ref ==> Get(out[k].viewmodel, kp) == Get(levels[k].viewmodel, kp)
    ensures var out := Unrestricted(levels, ref, chain).1;
      forall k :: 0 <= k < |levels| ==> levels[k].bindings <= out[k].bindings
    decreases |levels|
  {
    var me := levels[0];
    var key := FirstSegment(ref);
    if NearestMatch(chain, me.viewmodel, key).None? && key !in me.data && !IsTopScope(levels)
       && !(|me.host| > 0 && ref in me.host[0].indexRefs) {
      var up := Unrestricted(levels[1..], ref, me.host);
      WritesOnlyReference(levels[1..], ref, me.host);
      var out := Unrestricted(levels, ref, chain).1;
      assert out[1..] == up.1;
      forall k | 1 <= k < |levels|
        ensures levels[k] == levels[1..][k - 1] && out[k] == up.1[k - 1]
      {
      }
    }
  }

  /** A view instance. Only its viewmodel and its list of component bindings
      change during resolution; `host` is its component's parent fragment
      chain, and `depth` (ghost) keeps the parent chain finite. */
  class Ractive {
    var viewmodel: map<string, Value>
    var bindings: seq<Binding>
    const data: set<string>
    const parent: Ractive?
    const isolated: bool
    const host: seq<Fragment>
    ghost const depth: nat

    ghost predicate WellFormed()
      decreases depth
    {
      parent != null ==> parent.depth < depth && |host| > 0 && parent.WellFormed()
    }

    constructor (viewmodel: map<string, Value>, data: set<string>, parent: Ractive?, isolated: bool, host: seq<Fragment>)
      requires parent != null ==> parent.WellFormed() && |host| > 0
      ensures WellFormed()
      ensures this.viewmodel == viewmodel && bindings == [] && this.data == data
      ensures this.parent == parent && this.isolated == isolated && this.host == host
    {
      this.viewmodel := viewmodel;
      bindings := [];
      this.data := data;
      this.parent := parent;
      this.isolated := isolated;
      this.host := host;
      depth := if parent == null then 0 else parent.depth + 1;
    }
  }

  /** The instance and all its ancestors. */
  ghost function Lineage(r: Ractive): set<Ractive>
    requires r.WellFormed()
    decreases r.depth
  {
    {r} + (if r.parent == null then {} else Lineage(r.parent))
  }

  /** Every ancestor is allocated and lies strictly deeper up the chain, so
      an instance is never among its own ancestors. */
  lemma {:induction false} LineageBelow(r: Ractive)
    requires r.WellFormed()
    ensures forall x :: x in Lineage(r) ==> x.depth <= r.depth && allocated(x)
    decreases r.depth
  {
    if r.parent != null {
      LineageBelow(r.parent);
    }
  }

  /** The abstract state of an instance chain, nearest first. */
  ghost function Levels(r: Ractive): (ls: seq<Scope>)
    requires r.WellFormed()
    reads Lineage(r)
    ensures |ls| >= 1
    ensures ls[0] == Scope(r.viewmodel, r.bindings, r.data, r.isolated, r.host)
    decreases r.depth
  {
    [Scope(r.viewmodel, r.bindings, r.data, r.isolated, r.host)] +
    (if r.parent == null then [] else Levels(r.parent))
  }

  /** The do-while over the fragment chain (lines 26-39): the first fragment
      whose context value holds `key` gives `context + '.' + ref`; it also
      notes whether any fragment had a context. */
  method FindContext(vm: map<string, Value>, chain: seq<Fragment>, key: string, ref: string)
    returns (keypath: Option<string>, hasContextChain: bool)
    ensures var m := NearestMatch(chain, vm, key);
      m.Some? ==> keypath == Some(chain[m.value].context.value + "." + ref)
    ensures NearestMatch(chain, vm, key).None? ==> keypath == None && hasContextChain == HasContext(chain)
  {
    var i := 0;
    hasContextChain := false;
    while i < |chain|
      invariant 0 <= i <= |chain|
      invariant hasContextChain <==> exists j :: 0 <= j < i && Truthy(chain[j].context)
      invariant forall j :: 0 <= j < i ==> !MatchesAt(chain, vm, key, j)
    {
      var context := chain[i].context;
      if Truthy(context) {
        hasContextChain := true;
        var parentValue := Get(vm, context.value);
        if parentValue.Object? && key in parentValue.keys {
          assert MatchesAt(chain, vm, key, i);
          return Some(context.value + "." + ref), hasContextChain;
        }
      }
      i := i + 1;
    }
    return None, hasContextChain;
  }

  /** `resolveRef` past the `.` test: context chain, root data, then the
      parent component (an index reference of the host fragment, or a
      recursive resolution whose result is bound into this instance). */
  method ResolveUnrestricted(r: Ractive, ref: string, chain: seq<Fragment>) returns (keypath: Option<string>)
    requires r.WellFormed()
    modifies Lineage(r)
    ensures (keypath, Levels(r)) == Unrestricted(old(Levels(r)), ref, chain)
    decreases r.depth
  {
    LineageBelow(r);
    ghost var before := Levels(r);
    var key := Split(ref)[0];
    var found, hasContextChain := FindContext(r.viewmodel, chain, key, ref);
    if found.Some? {
      return found;
    }
    if key in r.data {
      return Some(ref);
    }
    if r.parent != null && !r.isolated {
      assert before[1..] == Levels(r.parent);
      LineageBelow(r.parent);
      var fragment := r.host[0];
      if ref in fragment.indexRefs {
        r.viewmodel := r.viewmodel[ref := Number(fragment.indexRefs[ref])];
        return None;
      }
      var parentKeypath := ResolveUnrestricted(r.parent, ref, r.host);
      if parentKeypath.Some? && parentKeypath.value != "" {
        r.viewmodel := r.viewmodel[ref := Get(r.parent.viewmodel, parentKeypath.value)];
        r.bindings := r.bindings + [Binding(parentKeypath.value, ref)];
      }
    }
    if !hasContextChain {
      return Some(ref);
    }
    if Get(r.viewmodel, ref) != Undefined {
      return Some(ref);
    }
    return None;
  }

  /** `resolveRef(ractive, ref, fragment)`, with `innerContext` standing for
      `getInnerContext(fragment)` and `chain` for the fragment and its
      ancestors, nearest first. The error is the thrown "too many ../". */
  method ResolveRef(r: Ractive, ref: string, chain: seq<Fragment>, innerContext: Option<string>)
    returns (result: Result<Option<string>>)
    requires r.WellFormed() && |chain| >= 1
    modifies Lineage(r)
    ensures (result, Levels(r)) == Resolve(old(Levels(r)), ref, chain, innerContext)
  {
    if |ref| > 0 && ref[0] == '.' {
      LineageBelow(r);
      result := ResolveAncestorReference(innerContext, ref);
      return;
    }
    var keypath := ResolveUnrestricted(r, ref, chain);
    return Ok(keypath);
  }
}
