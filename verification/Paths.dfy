/** What normalising a path means: a stack of components, folded over the components of the input, in a buffer of
    limited size. The code of the two normalisers is proved to compute it in VfsPath and SyscallPath. */
module Paths {
  import opened Options

  type Text = seq<char>

  const DOT: Text := "."
  const DOTDOT: Text := ".."

  // Components

  /** Length of the component at the start of `s`. */
  function Span(s: Text): (n: nat)
    ensures n <= |s| && (n < |s| ==> s[n] == '/') && forall i :: 0 <= i < n ==> s[i] != '/'
  {
    if s == [] || s[0] == '/' then 0 else 1 + Span(s[1..])
  }

  /** The non-empty stretches between slashes. */
  function Components(s: Text): (cs: seq<Text>)
    ensures forall i :: 0 <= i < |cs| ==> cs[i] != [] && '/' !in cs[i]
    decreases |s|
  {
    if s == [] then []
    else if s[0] == '/' then Components(s[1..])
    else
      var n := Span(s);
      assert n > 0;
      [s[..n]] + Components(s[n..])
  }

  /** A component that stays in a path. */
  predicate Plain(c: Text)
  {
    c != [] && c != DOT && c != DOTDOT && '/' !in c
  }

  predicate AllPlain(cs: seq<Text>)
  {
    forall i :: 0 <= i < |cs| ==> Plain(cs[i])
  }

  function Last<T>(s: seq<T>): (r: T)
    requires s != []
  {
    s[|s| - 1]
  }

  function Init<T>(s: seq<T>): (r: seq<T>)
    requires s != []
  {
    s[..|s| - 1]
  }

  function Join(cs: seq<Text>): (r: Text)
  {
    if cs == [] then [] else if |cs| == 1 then cs[0] else Join(Init(cs)) + "/" + Last(cs)
  }

  // The stack fold

  /** One component, on the stack of components kept so far; nothing when the joined path no longer fits the buffer. */
  function Push(stack: seq<Text>, c: Text, size: nat): (r: Option<seq<Text>>)
  {
    if c == DOT then Some(stack)
    else if c == DOTDOT then Some(if stack == [] then [] else Init(stack))
    else if |Join(stack + [c])| >= size then None
    else Some(stack + [c])
  }

  function Fold(stack: seq<Text>, cs: seq<Text>, size: nat): (r: Option<seq<Text>>)
    decreases |cs|
  {
    if cs == [] then Some(stack)
    else
      var next := Push(stack, cs[0], size);
      if next.None? then None else Fold(next.value, cs[1..], size)
  }

  /** A path, normalised in a buffer of `size` bytes. */
  function Normalize(path: Text, size: nat): (r: Option<Text>)
  {
    if size == 0 then None
    else
      var stack := Fold([], Components(path), size);
      if stack.None? then None else Some(Join(stack.value))
  }

  /** A path against a base, which counts unless the path is absolute. */
  function Canonicalize(base: Text, input: Text, size: nat): (r: Option<Text>)
  {
    if size == 0 then None
    else
      var start := if (input == [] || input[0] != '/') && base != [] then Fold([], Components(base), size)
          else Some([]);
      if start.None? then None
      else
        var stack := Fold(start.value, Components(input), size);
        if stack.None? then None else Some(Join(stack.value))
  }

  // Reading the next component

  function SkipSlashes(s: Text): (t: Text)
    ensures |t| <= |s| && (t != [] ==> t[0] != '/')
  {
    if s != [] && s[0] == '/' then SkipSlashes(s[1..]) else s
  }

  lemma {:induction false} NextComponent(s: Text)
    ensures var t := SkipSlashes(s);
            Components(s) == if t == [] then [] else [t[..Span(t)]] + Components(t[Span(t)..])
    decreases |s|
  {
    if s != [] && s[0] == '/' {
      NextComponent(s[1..]);
    }
  }

  lemma JoinSnoc(stack: seq<Text>, c: Text)
    ensures Join(stack + [c]) == if stack == [] then c else Join(stack) + "/" + c
  {
    assert Init(stack + [c]) == stack && Last(stack + [c]) == c;
  }

  /** Components that are not empty and hold no slash. */
  predicate Names(cs: seq<Text>)
  {
    forall i :: 0 <= i < |cs| ==> cs[i] != [] && '/' !in cs[i]
  }

  lemma JoinEmpty(stack: seq<Text>)
    requires Names(stack)
    ensures Join(stack) == [] <==> stack == []
  {
    if |stack| > 1 {
      assert Join(stack) == Join(Init(stack)) + "/" + Last(stack);
    }
  }

  // Normal form

  lemma {:induction false} FoldPlain(stack: seq<Text>, cs: seq<Text>, size: nat)
    requires AllPlain(stack) && |Join(stack)| < size && forall i :: 0 <= i < |cs| ==> cs[i] != [] && '/' !in cs[i]
    ensures var r := Fold(stack, cs, size); r.Some? ==> AllPlain(r.value) && |Join(r.value)| < size
    decreases |cs|
  {
    if cs != [] {
      var next := Push(stack, cs[0], size);
      if next.Some? {
        JoinShrinks(stack);
        FoldPlain(next.value, cs[1..], size);
      }
    }
  }

  lemma JoinShrinks(stack: seq<Text>)
    ensures stack != [] ==> |Join(Init(stack))| <= |Join(stack)|
  {
  }

  /** Splitting a joined path gives its components back. */
  lemma {:induction false} SplitJoin(cs: seq<Text>)
    requires AllPlain(cs)
    ensures Components(Join(cs)) == cs
    decreases |cs|
  {
    if |cs| == 1 {
      SplitOne(cs[0]);
      assert cs == [cs[0]];
    } else if |cs| > 1 {
      SplitJoin(Init(cs));
      SplitOne(Last(cs));
      SplitAppend(Join(Init(cs)), Last(cs));
      assert cs == Init(cs) + [Last(cs)];
    }
  }

  lemma SplitOne(c: Text)
    requires c != [] && '/' !in c
    ensures Components(c) == [c]
  {
    var n := Span(c);
    assert n == |c|;
    assert c[..n] == c && c[n..] == [];
  }

  /** A slash between two paths separates their components. */
  lemma {:induction false} SplitAppend(x: Text, y: Text)
    ensures Components(x + "/" + y) == Components(x) + Components(y)
    decreases |x|
  {
    var s := x + "/" + y;
    if x == [] {
      assert s[1..] == y;
    } else if x[0] == '/' {
      assert s[1..] == x[1..] + "/" + y;
      SplitAppend(x[1..], y);
    } else {
      var n := Span(x);
      SpanAppend(x, y);
      assert s[..n] == x[..n] && s[n..] == x[n..] + "/" + y;
      SplitAppend(x[n..], y);
    }
  }

  lemma {:induction false} SpanAppend(x: Text, y: Text)
    ensures Span(x + "/" + y) == Span(x)
    decreases |x|
  {
    var s := x + "/" + y;
    if x != [] && x[0] != '/' {
      assert s[1..] == x[1..] + "/" + y;
      SpanAppend(x[1..], y);
    }
  }

  lemma {:induction false} FoldAppend(stack: seq<Text>, a: seq<Text>, b: seq<Text>, size: nat)
    ensures Fold(stack, a + b, size) == var r := Fold(stack, a, size); if r.None? then None else Fold(r.value, b, size)
    decreases |a|
  {
    if a == [] {
      assert a + b == b;
    } else {
      assert (a + b)[1..] == a[1..] + b;
      var next := Push(stack, a[0], size);
      if next.Some? {
        FoldAppend(next.value, a[1..], b, size);
      }
    }
  }

  /** Folding plain components that fit just stacks them. */
  lemma {:induction false} FoldStacks(done: seq<Text>, cs: seq<Text>, size: nat)
    requires AllPlain(cs) && |Join(done + cs)| < size
    ensures Fold(done, cs, size) == Some(done + cs)
    decreases |cs|
  {
    if cs == [] {
      assert done + cs == done;
    } else {
      assert Plain(cs[0]);
      assert done + [cs[0]] + cs[1..] == done + cs;
      JoinPrefix(done + [cs[0]], cs[1..]);
      FoldStacks(done + [cs[0]], cs[1..], size);
    }
  }

  lemma {:induction false} JoinPrefix(a: seq<Text>, b: seq<Text>)
    ensures |Join(a)| <= |Join(a + b)|
    decreases |b|
  {
    if b == [] {
      assert a + b == a;
    } else {
      assert Init(a + b) == a + Init(b);
      JoinPrefix(a, Init(b));
      JoinShrinks(a + b);
    }
  }

  /** Path normal form: the result fits the buffer, splits into components none of which is empty, "." or "..", and is
      the join of the stack fold over the input's components. */
  lemma NormalForm(path: Text, size: nat)
    ensures var r := Normalize(path, size);
            r.Some? ==>
              && |r.value| < size && AllPlain(Components(r.value)) && r.value == Join(Components(r.value))
              && Fold([], Components(path), size) == Some(Components(r.value))
  {
    if Normalize(path, size).Some? {
      FoldPlain([], Components(path), size);
      SplitJoin(Fold([], Components(path), size).value);
    }
  }

  /** Normalising twice changes nothing, in any buffer the result fits. */
  lemma Idempotent(path: Text, size: nat, size2: nat)
    requires Normalize(path, size).Some? && |Normalize(path, size).value| < size2
    ensures Normalize(Normalize(path, size).value, size2) == Normalize(path, size)
  {
    NormalForm(path, size);
    var cs := Components(Normalize(path, size).value);
    assert [] + cs == cs;
    FoldStacks([], cs, size2);
  }

  /** Resolving a relative path against a base is normalising the two joined by a slash, with the same overflows. */
  lemma RelativeIsJoined(base: Text, input: Text, size: nat)
    requires base != [] && (input == [] || input[0] != '/')
    ensures Canonicalize(base, input, size) == Normalize(base + "/" + input, size)
  {
    SplitAppend(base, input);
    FoldAppend([], Components(base), Components(input), size);
  }

  /** Resolving in two steps, first the base and then the relative path, is the same again. */
  lemma TwoSteps(a: Text, b: Text, size: nat)
    requires a != [] && (b == [] || b[0] != '/')
    ensures var r := Normalize(a, size);
            Normalize(a + "/" + b, size) == if r.None? then None else Canonicalize(r.value, b, size)
  {
    SplitAppend(a, b);
    FoldAppend([], Components(a), Components(b), size);
    var r := Normalize(a, size);
    if r.Some? {
      NormalForm(a, size);
      var cs := Components(r.value);
      assert [] + cs == cs;
      FoldStacks([], cs, size);
    }
  }

  // When a path fits

  function Next(stack: seq<Text>, c: Text): (r: seq<Text>)
  {
    if c == DOT || (c == DOTDOT && stack == []) then stack else if c == DOTDOT then Init(stack) else stack + [c]
  }

  /** The components left when there is no limit on length. */
  function Resolve(stack: seq<Text>, cs: seq<Text>): (r: seq<Text>)
    decreases |cs|
  {
    if cs == [] then stack else Resolve(Next(stack, cs[0]), cs[1..])
  }

  /** The path resolved so far fits the buffer after each of the first components. */
  predicate AlwaysFits(stack: seq<Text>, cs: seq<Text>, size: nat)
  {
    forall n :: 0 <= n <= |cs| ==> |Join(Resolve(stack, cs[..n]))| < size
  }

  lemma FitsUnfold(stack: seq<Text>, cs: seq<Text>, size: nat)
    requires cs != [] && |Join(stack)| < size
    ensures AlwaysFits(stack, cs, size) <==> AlwaysFits(Next(stack, cs[0]), cs[1..], size)
  {
    hide Join;
    var next := Next(stack, cs[0]);
    forall n | 1 <= n <= |cs| ensures Resolve(stack, cs[..n]) == Resolve(next, cs[1..][..n - 1]) {
      assert cs[..n][0] == cs[0] && cs[..n][1..] == cs[1..][..n - 1];
    }
    assert cs[..0] == [];
    if AlwaysFits(next, cs[1..], size) {
      forall n | 0 <= n <= |cs| ensures |Join(Resolve(stack, cs[..n]))| < size {
        if n > 0 {
          assert |Join(Resolve(next, cs[1..][..n - 1]))| < size;
        }
      }
    }
    if AlwaysFits(stack, cs, size) {
      forall n | 0 <= n <= |cs[1..]| ensures |Join(Resolve(next, cs[1..][..n]))| < size {
        assert |Join(Resolve(stack, cs[..n + 1]))| < size;
      }
    }
  }

  lemma {:induction false} FoldIsResolve(stack: seq<Text>, cs: seq<Text>, size: nat)
    requires |Join(stack)| < size
    ensures Fold(stack, cs, size) == if AlwaysFits(stack, cs, size) then Some(Resolve(stack, cs)) else None
    decreases |cs|
  {
    hide AlwaysFits, Join;
    if cs == [] {
      assert AlwaysFits(stack, cs, size) by { FitsEmpty(stack, cs, size); }
    } else {
      FitsUnfold(stack, cs, size);
      var next := Next(stack, cs[0]);
      JoinShrinks(stack);
      if |Join(next)| < size {
        FoldIsResolve(next, cs[1..], size);
      } else {
        assert !AlwaysFits(next, cs[1..], size) by { FitsStart(next, cs[1..], size); }
      }
    }
  }

  lemma FitsEmpty(stack: seq<Text>, cs: seq<Text>, size: nat)
    requires |Join(stack)| < size && cs == []
    ensures AlwaysFits(stack, cs, size)
  {
  }

  lemma FitsStart(stack: seq<Text>, cs: seq<Text>, size: nat)
    requires |Join(stack)| >= size
    ensures !AlwaysFits(stack, cs, size)
  {
    assert cs[..0] == [];
  }

  /** normalize_path succeeds exactly when the path resolved so far fits the buffer after every component, and then
      gives the resolved path. */
  lemma NormalizeSucceedsIff(path: Text, size: nat)
    ensures Normalize(path, size) ==
              if size > 0 && AlwaysFits([], Components(path), size) then Some(Join(Resolve([], Components(path))))
                  else None
  {
    hide AlwaysFits;
    if size > 0 {
      FoldIsResolve([], Components(path), size);
    }
  }

  // Scanning and buffers

  lemma SpanPositive(t: Text)
    requires t != [] && t[0] != '/'
    ensures 0 < Span(t)
  {
  }

  lemma NextFits(stack: seq<Text>, c: Text, size: nat)
    requires Names(stack) && |Join(stack)| < size && c != [] && '/' !in c && Push(stack, c, size).Some?
    ensures Names(Push(stack, c, size).value) && |Join(Push(stack, c, size).value)| < size
  {
    JoinShrinks(stack);
  }

  lemma NoSpan(t: Text, s: Text)
    requires t == SkipSlashes(s) && Span(t) == 0
    ensures t == []
  {
  }

  lemma NothingLeft()
    ensures SkipSlashes([]) == []
  {
  }

  /** The buffer holds a text, terminated. */
  ghost predicate Holds(out: array<char>, len: nat, text: Text)
    reads out
  {
    len < out.Length && out[..len] == text && out[len] == '\0'
  }
}
