/** Dot-separated keypaths and the relative references of
    src/shared/resolveRef.js (`.`, `../`, `./`). */
module Keypaths {
  import opened Wrappers

  const AncestorErrorMessage: string := "Could not resolve reference - too many \"../\" prefixes"

  /** `s.split('.')`: the pieces between dots; always at least one piece. */
  function Split(s: string): (parts: seq<string>)
    ensures |parts| >= 1
    ensures forall k :: 0 <= k < |parts| ==> '.' !in parts[k]
  {
    if s == [] then [""]
    else if s[0] == '.' then [""] + Split(s[1..])
    else
      var rest := Split(s[1..]);
      [[s[0]] + rest[0]] + rest[1..]
  }

  /** `parts.join('.')`. */
  function Join(parts: seq<string>): string
  {
    if parts == [] then ""
    else if |parts| == 1 then parts[0]
    else parts[0] + "." + Join(parts[1..])
  }

  /** No segments join to the empty string; otherwise the joined keypath
      starts with the first segment and ends with the last. */
  lemma {:induction false} JoinEnds(parts: seq<string>)
    ensures parts == [] ==> Join(parts) == ""
    ensures parts != [] ==> parts[0] <= Join(parts)
    ensures parts != [] ==> |parts[|parts| - 1]| <= |Join(parts)|
    ensures parts != [] ==> Join(parts)[|Join(parts)| - |parts[|parts| - 1]|..] == parts[|parts| - 1]
  {
    if |parts| > 1 {
      JoinEnds(parts[1..]);
      var tail := Join(parts[1..]);
      var last := parts[|parts| - 1];
      assert parts[1..][|parts[1..]| - 1] == last;
      assert Join(parts) == parts[0] + "." + tail;
      assert Join(parts)[..|parts[0]|] == parts[0];
      assert Join(parts)[|Join(parts)| - |last|..] == tail[|tail| - |last|..];
    }
  }

  /** Joining the pieces of a split gives back the keypath. */
  lemma {:induction false} JoinSplit(s: string)
    ensures Join(Split(s)) == s
  {
    if s != [] {
      JoinSplit(s[1..]);
      var rest := Split(s[1..]);
      if s[0] == '.' {
        assert Split(s) == [""] + rest;
        assert s == "." + s[1..];
      } else if |rest| == 1 {
        assert s == [s[0]] + s[1..];
      } else {
        assert Join(Split(s)) == [s[0]] + rest[0] + "." + Join(rest[1..]);
        assert s == [s[0]] + s[1..];
      }
    }
  }

  /** Splitting a join of dot-free pieces gives back the pieces. */
  lemma {:induction false} SplitJoin(parts: seq<string>)
    requires |parts| >= 1
    requires forall k :: 0 <= k < |parts| ==> '.' !in parts[k]
    ensures Split(Join(parts)) == parts
  {
    if |parts| == 1 {
      SplitPiece(parts[0], []);
      assert parts[0] + [] == parts[0];
    } else {
      var tail := "." + Join(parts[1..]);
      SplitJoin(parts[1..]);
      SplitPiece(parts[0], tail);
      assert tail[1..] == Join(parts[1..]);
      assert Join(parts) == parts[0] + tail;
      assert parts == [parts[0]] + parts[1..];
    }
  }

  /** A dot-free prefix joins onto the first piece of what follows. */
  lemma {:induction false} SplitPiece(p: string, t: string)
    requires '.' !in p
    requires t == [] || t[0] == '.'
    ensures Split(p + t) == [p + Split(t)[0]] + Split(t)[1..]
    ensures t == [] ==> Split(p + t) == [p]
    ensures t != [] ==> Split(p + t) == [p] + Split(t[1..])
  {
    if p == [] {
      assert p + t == t;
    } else {
      var s0 := Split(t)[0];
      assert (p + t)[0] == p[0] && (p + t)[1..] == p[1..] + t;
      SplitPiece(p[1..], t);
      assert [p[0]] + (p[1..] + s0) == p + s0;
    }
    if t == [] {
      assert Split(t) == [""] && p + "" == p;
    } else {
      assert Split(t) == [""] + Split(t[1..]) && p + "" == p;
    }
  }

  /** JavaScript truthiness of an optional keypath: undefined and "" are false. */
  predicate Truthy(c: Option<string>)
  {
    c.Some? && c.value != ""
  }

  predicate StartsWithParent(ref: string)
  {
    |ref| >= 3 && ref[..3] == "../"
  }

  /** The number of leading `../` prefixes of a reference. */
  function LeadingParents(ref: string): (n: nat)
    ensures 3 * n <= |ref|
    decreases |ref|
  {
    if StartsWithParent(ref) then 1 + LeadingParents(ref[3..]) else 0
  }

  /** What is left of a reference after its leading `../` prefixes. */
  function AfterParents(ref: string): string
  {
    ref[3 * LeadingParents(ref)..]
  }

  /** The segments of a base context (none for a falsy context). */
  function ContextKeys(baseContext: Option<string>): seq<string>
  {
    if Truthy(baseContext) then Split(baseContext.value) else []
  }

  /** The keypath a relative reference denotes under `baseContext`:
      `.` is the context itself; N leading `../` drop the last N segments of
      the context (an error when it has fewer) and append what is left;
      `.x` and `./x` are restricted references below the context. */
  function Ancestor(baseContext: Option<string>, ref: string): Result<Option<string>>
  {
    if ref == "." then Ok(baseContext)
    else if StartsWithParent(ref) then
      var keys := ContextKeys(baseContext);
      var n := LeadingParents(ref);
      if n > |keys| then Err(AncestorErrorMessage)
      else Ok(Some(Join(keys[..|keys| - n] + [AfterParents(ref)])))
    else if !Truthy(baseContext) then
      Ok(Some(if |ref| >= 2 && ref[..2] == "./" then ref[2..]
              else if |ref| >= 1 && ref[0] == '.' then ref[1..]
              else ref))
    else
      Ok(Some(baseContext.value + (if |ref| >= 2 && ref[..2] == "./" then "." + ref[2..] else ref)))
  }

  /** N copies of the `../` prefix. */
  function Parents(n: nat): (r: string)
    ensures |r| == 3 * n
  {
    if n == 0 then "" else "../" + Parents(n - 1)
  }

  /** A reference written as N `../` prefixes followed by a remainder that
      does not start with `../` has exactly N leading prefixes. */
  lemma {:induction false} LeadingParentsOf(n: nat, rest: string)
    requires !StartsWithParent(rest)
    ensures LeadingParents(Parents(n) + rest) == n
    ensures AfterParents(Parents(n) + rest) == rest
  {
    if n > 0 {
      var ref := Parents(n) + rest;
      assert ref[..3] == "../";
      assert ref[3..] == Parents(n - 1) + rest;
      LeadingParentsOf(n - 1, rest);
    } else {
      assert Parents(n) + rest == rest;
    }
  }

  /** Joining ends with the last piece after a dot. */
  lemma {:induction false} JoinSnoc(parts: seq<string>, last: string)
    requires |parts| >= 1
    ensures Join(parts + [last]) == Join(parts) + "." + last
  {
    if |parts| == 1 {
      assert parts + [last] == [parts[0], last];
    } else {
      assert (parts + [last])[1..] == parts[1..] + [last];
      JoinSnoc(parts[1..], last);
    }
  }

  /** `.` is the inner context, unchanged (also when there is none). */
  lemma DotIsInnerContext(baseContext: Option<string>)
    ensures Ancestor(baseContext, ".") == Ok(baseContext)
  {
  }

  /** N `../` under a context of at least N segments drop its last N
      segments and append the remainder; with segments left over, the
      result is the shortened context, a dot and the remainder. */
  lemma AncestorPops(baseContext: Option<string>, n: nat, rest: string)
    requires 1 <= n <= |ContextKeys(baseContext)|
    requires !StartsWithParent(rest)
    ensures var keys := ContextKeys(baseContext);
      Ancestor(baseContext, Parents(n) + rest) == Ok(Some(Join(keys[..|keys| - n] + [rest])))
    ensures var keys := ContextKeys(baseContext);
      n < |keys| ==> Ancestor(baseContext, Parents(n) + rest) == Ok(Some(Join(keys[..|keys| - n]) + "." + rest))
    ensures n == |ContextKeys(baseContext)| ==> Ancestor(baseContext, Parents(n) + rest) == Ok(Some(rest))
  {
    var ref := Parents(n) + rest;
    assert ref[..3] == "../";
    LeadingParentsOf(n, rest);
    var keys := ContextKeys(baseContext);
    if n < |keys| {
      JoinSnoc(keys[..|keys| - n], rest);
    } else {
      assert keys[..|keys| - n] + [rest] == [rest];
    }
  }

  /** More `../` prefixes than context segments, including under no context
      at all, raise the error and yield no keypath. */
  lemma AncestorOverflow(baseContext: Option<string>, n: nat, rest: string)
    requires n > |ContextKeys(baseContext)|
    requires !StartsWithParent(rest)
    ensures Ancestor(baseContext, Parents(n) + rest) == Err(AncestorErrorMessage)
  {
    var ref := Parents(n) + rest;
    assert ref[..3] == "../";
    LeadingParentsOf(n, rest);
  }

  /** Restricted references: `.x` and `./x` mean the same thing; with no
      context they are `x` itself, under a context `c` they are `c.x`. */
  lemma RestrictedReferences(baseContext: Option<string>, x: string)
    requires x != [] && x[0] != '/' && x[0] != '.'
    ensures Ancestor(baseContext, "." + x) == Ancestor(baseContext, "./" + x)
    ensures !Truthy(baseContext) ==> Ancestor(baseContext, "." + x) == Ok(Some(x))
    ensures Truthy(baseContext) ==> Ancestor(baseContext, "./" + x) == Ok(Some(baseContext.value + "." + x))
  {
    assert ("." + x)[1..] == x && ("./" + x)[2..] == x;
    assert ("./" + x)[..2] == "./";
    assert !(|"." + x| >= 2 && ("." + x)[..2] == "./");
    assert baseContext.Some? ==> baseContext.value + ("." + x) == baseContext.value + "." + x;
  }

  /** The worked cases: `../../x` under `a.b.c` is `a.x`, under `a` it is
      the error, and `.` under `a.b` is `a.b`. */
  lemma AncestorExamples()
    ensures Ancestor(Some("a.b.c"), "../../x") == Ok(Some("a.x"))
    ensures Ancestor(Some("a"), "../../x") == Err(AncestorErrorMessage)
    ensures Ancestor(Some("a.b"), ".") == Ok(Some("a.b"))
  {
    assert Join(["a", "b", "c"]) == "a.b.c";
    SplitJoin(["a", "b", "c"]);
    SplitJoin(["a"]);
    assert Join(["a"]) == "a";
    assert ContextKeys(Some("a.b.c")) == ["a", "b", "c"];
    assert Join(["a", "x"]) == "a.x";
    assert Parents(2) + "x" == "../../x";
    AncestorPops(Some("a.b.c"), 2, "x");
    AncestorOverflow(Some("a"), 2, "x");
  }

  /** `resolveAncestorReference`: pops one context segment per `../`, and
      throws when there is none left to pop. */
  method ResolveAncestorReference(baseContext: Option<string>, ref: string) returns (r: Result<Option<string>>)
    ensures r == Ancestor(baseContext, ref)
  {
    if ref == "." {
      return Ok(baseContext);
    }
    var contextKeys := if Truthy(baseContext) then Split(baseContext.value) else [];
    if |ref| >= 3 && ref[..3] == "../" {
      ghost var keys := contextKeys;
      ghost var popped := 0;
      var rest := ref;
      while |rest| >= 3 && rest[..3] == "../"
        invariant 0 <= popped <= |keys|
        invariant contextKeys == keys[..|keys| - popped]
        invariant 3 * popped <= |ref| && rest == ref[3 * popped..]
        invariant LeadingParents(ref) == popped + LeadingParents(rest)
        decreases |rest|
      {
        if |contextKeys| == 0 {
          return Err(AncestorErrorMessage);
        }
        contextKeys := contextKeys[..|contextKeys| - 1];
        rest := rest[3..];
        popped := popped + 1;
      }
      contextKeys := contextKeys + [rest];
      return Ok(Some(Join(contextKeys)));
    }
    if !Truthy(baseContext) {
      if |ref| >= 2 && ref[..2] == "./" {
        return Ok(Some(ref[2..]));
      } else if |ref| >= 1 && ref[0] == '.' {
        return Ok(Some(ref[1..]));
      }
      return Ok(Some(ref));
    }
    if |ref| >= 2 && ref[..2] == "./" {
      assert baseContext.value + "." + ref[2..] == baseContext.value + ("." + ref[2..]);
      return Ok(Some(baseContext.value + "." + ref[2..]));
    }
    return Ok(Some(baseContext.value + ref));
  }
}
