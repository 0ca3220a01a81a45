/** normalize_path of kernel/vfs.c, with its own loop and its own handling of the buffer. */
module VfsPath {
  import opened Options
  import opened Paths

  /** The text without the name at its end. */
  function WithoutName(out: Text): (r: Text)
    ensures r <= out && (r != [] ==> Last(r) == '/')
  {
    if out == [] || Last(out) == '/' then out else WithoutName(Init(out))
  }

  /** pop_path_component on the text in the buffer. */
  function Pop(out: Text): (r: Text)
    ensures |r| <= |out|
  {
    var kept := WithoutName(out);
    if kept == [] then [] else Init(kept)
  }

  /** append_path_component in a buffer of `size` bytes. */
  function Append(out: Text, component: Text, size: nat): (r: Option<Text>)
    ensures r.Some? ==> |r.value| < size
  {
    if out != [] && |out| + 1 >= size then None
    else
      var start := if out == [] then [] else out + "/";
      if |start| + |component| >= size then None else Some(start + component)
  }

  /** The loop of normalize_path over the rest of the path. */
  function Loop(s: Text, out: Text, size: nat): (r: Option<Text>)
    requires |out| < size
    ensures r.Some? ==> |r.value| < size
    decreases |s|
  {
    var t := SkipSlashes(s);
    if t == [] then Some(out)
    else
      var component, rest := t[..Span(t)], t[Span(t)..];
      if component == DOT then Loop(rest, out, size)
      else if component == DOTDOT then Loop(rest, Pop(out), size)
      else
        var longer := Append(out, component, size);
        if longer.None? then None else Loop(rest, longer.value, size)
  }

  /** normalize_path. */
  function Normalize(path: Text, size: nat): (r: Option<Text>)
    ensures r.Some? ==> |r.value| < size
  {
    if size == 0 then None else Loop(path, [], size)
  }

  // Refinement

  lemma {:induction false} WithoutNameIs(out: Text, name: Text)
    requires '/' !in name && (out != [] ==> Last(out) == '/')
    ensures WithoutName(out + name) == out
    decreases |name|
  {
    if name == [] {
      assert out + name == out;
    } else {
      assert Init(out + name) == out + Init(name) && Last(out + name) == Last(name);
      WithoutNameIs(out, Init(name));
    }
  }

  lemma PopJoined(stack: seq<Text>)
    requires Names(stack)
    ensures Pop(Join(stack)) == Join(if stack == [] then [] else Init(stack))
  {
    if |stack| == 1 {
      WithoutNameIs([], stack[0]);
      assert [] + stack[0] == stack[0];
    } else if |stack| > 1 {
      var out := Join(Init(stack)) + "/";
      WithoutNameIs(out, Last(stack));
      assert Init(out) == Join(Init(stack));
    }
  }

  lemma AppendJoined(stack: seq<Text>, c: Text, size: nat)
    requires Names(stack) && c != []
    ensures Append(Join(stack), c, size) == if |Join(stack + [c])| >= size then None else Some(Join(stack + [c]))
  {
    hide Join;
    JoinSnoc(stack, c);
    JoinEmpty(stack);
    assert [] + c == c;
  }

  /** The loop on the text of a stack is the fold on the stack. */
  lemma {:induction false} LoopIsFold(s: Text, stack: seq<Text>, size: nat)
    requires Names(stack) && |Join(stack)| < size
    ensures var r := Fold(stack, Components(s), size);
            Loop(s, Join(stack), size) == if r.None? then None else Some(Join(r.value))
    decreases |s|
  {
    hide Join, Components, Pop, Append, Span;
    NextComponent(s);
    var t := SkipSlashes(s);
    if t != [] {
      var c, rest := t[..Span(t)], t[Span(t)..];
      var cs := Components(s);
      assert cs[0] == c && cs[1..] == Components(rest) && c != [] && '/' !in c;
      SpanPositive(t);
      PopJoined(stack);
      AppendJoined(stack, c, size);
      var next := Push(stack, c, size);
      if next.Some? {
        NextFits(stack, c, size);
        LoopIsFold(rest, next.value, size);
      }
    }
  }

  /** normalize_path computes the stack fold, failures included. */
  lemma NormalizeIsFold(path: Text, size: nat)
    ensures Normalize(path, size) == Paths.Normalize(path, size)
  {
    if size > 0 {
      LoopIsFold(path, [], size);
    }
  }

  // The code

  /** pop_path_component. */
  method PopComponent(out: array<char>, len: nat) returns (n: nat)
    requires len < out.Length
    modifies out
    ensures Holds(out, n, Pop(old(out[..len])))
  {
    n := len;
    ghost var text := out[..len];
    assert text[..len] == text;
    while n > 0 && out[n - 1] != '/'
      invariant n <= len && out[..] == old(out[..]) && WithoutName(text) == WithoutName(text[..n])
    {
      assert Init(text[..n]) == text[..n - 1] && Last(text[..n]) == out[n - 1];
      n := n - 1;
    }
    assert n > 0 ==> Last(text[..n]) == '/' && Init(text[..n]) == text[..n - 1];
    assert WithoutName(text) == text[..n];
    if n > 0 && out[n - 1] == '/' { n := n - 1; }
    out[n] := '\0';
    assert out[..n] == text[..n];
  }

  /** The copy loop of append_path_component. */
  method CopyInto(out: array<char>, at: nat, component: Text)
    requires at + |component| < out.Length
    modifies out
    ensures Holds(out, at + |component|, old(out[..at]) + component)
  {
    var i := 0;
    while i < |component|
      invariant 0 <= i <= |component| && out[..at + i] == old(out[..at]) + component[..i]
    {
      out[at + i] := component[i];
      assert out[..at + i + 1] == out[..at + i] + [component[i]];
      i := i + 1;
    }
    out[at + |component|] := '\0';
    assert out[..at + |component|] == old(out[..at]) + component;
  }

  /** append_path_component; on failure the buffer may be left half-written. */
  method AppendComponent(out: array<char>, len: nat, component: Text) returns (ok: bool, n: nat)
    requires len < out.Length
    modifies out
    ensures var r := Append(old(out[..len]), component, out.Length); ok == r.Some? && (ok ==> Holds(out, n, r.value))
  {
    n := len;
    if n != 0 {
      if n + 1 >= out.Length { return false, n; }
      out[n] := '/';
      n := n + 1;
      assert out[..n] == old(out[..len]) + "/";
    }
    if n + |component| >= out.Length { return false, n; }
    CopyInto(out, n, component);
    ok, n := true, n + |component|;
  }

  /** The two scanning loops: where the next component lies. */
  method FindComponent(src: Text, cursor: nat) returns (start: nat, length: nat)
    requires cursor <= |src|
    ensures cursor <= start && start + length <= |src|
    ensures SkipSlashes(src[cursor..]) == src[start..] && Span(src[start..]) == length
  {
    start := cursor;
    while start < |src| && src[start] == '/'
      invariant cursor <= start <= |src| && SkipSlashes(src[cursor..]) == SkipSlashes(src[start..])
    {
      assert src[start..][1..] == src[start + 1..];
      start := start + 1;
    }
    length := 0;
    while start + length < |src| && src[start + length] != '/'
      invariant start + length <= |src| && Span(src[start..]) == length + Span(src[start + length..])
    {
      assert src[start + length..][1..] == src[start + length + 1..];
      length := length + 1;
    }
  }

  /** What the loop does with one component. */
  method Place(out: array<char>, len: nat, component: Text) returns (ok: bool, n: nat)
    requires len < out.Length && out[len] == '\0'
    modifies out
    ensures var text := old(out[..len]);
            var r := if component == DOT then Some(text) else if component == DOTDOT then Some(Pop(text))
                else Append(text, component, out.Length);
            ok == r.Some? && (ok ==> Holds(out, n, r.value))
  {
    ok, n := true, len;
    if component == DOT {
    } else if component == DOTDOT {
      n := PopComponent(out, len);
    } else {
      ok, n := AppendComponent(out, len, component);
    }
  }

  /** normalize_path. */
  method NormalizePath(path: Text, out: array<char>) returns (ok: bool, n: nat)
    modifies out
    ensures var r := Normalize(path, out.Length); ok == r.Some? && (ok ==> Holds(out, n, r.value))
  {
    hide Pop, Append, Span, SkipSlashes;
    if out.Length == 0 { return false, 0; }
    out[0] := '\0';
    n := 0;
    var cursor: nat := 0;
    assert path[0..] == path && out[..0] == [];
    while cursor < |path|
      invariant cursor <= |path| && n < out.Length && out[n] == '\0'
      invariant Loop(path, [], out.Length) == Loop(path[cursor..], out[..n], out.Length)
    {
      var start, length := FindComponent(path, cursor);
      if length == 0 {
        NoSpan(path[start..], path[cursor..]);
        return true, n;
      }
      assert path[start..][..length] == path[start..start + length]
             && path[start..][length..] == path[start + length..];
      ok, n := Place(out, n, path[start..start + length]);
      if !ok { return; }
      cursor := start + length;
    }
    assert path[cursor..] == [];
    NothingLeft();
    ok := true;
  }
}
