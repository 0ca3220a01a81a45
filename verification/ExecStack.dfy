/** The initial user stack (build_exec_stack in kernel/syscall.c), laid out as section 3.4.1 of the System V AMD64 psABI
    has it. */
module ExecStack {
  import opened Options
  import opened LittleEndian

  const STACK_BASE: nat := 0x700_0008_0000
  const STACK_SIZE: nat := 65536
  const STACK_TOP: nat := STACK_BASE + STACK_SIZE
  const PAGE: nat := 4096
  const MAX_EXEC_ARGS: nat := 16
  const MAX_EXEC_ENVP: nat := 16
  const MAX_EXEC_STRING: nat := 256

  /** The stack pages, as one stretch from STACK_BASE up, and the stack pointer. */
  datatype Stack = Stack(mem: Bytes, sp: nat)

  predicate StackOk(st: Stack)
  {
    |st.mem| == STACK_SIZE && STACK_BASE <= st.sp <= STACK_TOP
  }

  /** What the auxiliary vector reports besides addresses on the stack. */
  datatype Info = Info(entry: nat, base: nat, phdr: nat, phent: nat, phnum: nat, uid: nat, euid: nat, gid: nat,
      egid: nat, frequency: nat)

  predicate InfoOk(i: Info)
  {
    && i.entry < U64 && i.base < U64 && i.phdr < U64 && i.phent < U64 && i.phnum < U64
    && i.uid < U32 && i.euid < U32 && i.gid < U32 && i.egid < U32 && i.frequency < U32
  }

  predicate CString(s: Bytes)
  {
    0 !in s
  }

  function Store(mem: Bytes, addr: nat, data: Bytes): (r: Bytes)
    requires |mem| == STACK_SIZE && STACK_BASE <= addr && addr + |data| <= STACK_TOP
    ensures |r| == STACK_SIZE
    ensures forall k :: 0 <= k < STACK_SIZE ==>
              r[k] == if addr - STACK_BASE <= k < addr - STACK_BASE + |data| then data[k - (addr - STACK_BASE)]
                  else mem[k]
  {
    mem[..addr - STACK_BASE] + data + mem[addr - STACK_BASE + |data|..]
  }

  function Load(mem: Bytes, addr: nat, n: nat): (r: Bytes)
    requires |mem| == STACK_SIZE && STACK_BASE <= addr && addr + n <= STACK_TOP
    ensures |r| == n
  {
    mem[addr - STACK_BASE..addr - STACK_BASE + n]
  }

  function Word(mem: Bytes, addr: nat): (r: nat)
    requires |mem| == STACK_SIZE && STACK_BASE <= addr && addr + 8 <= STACK_TOP
  {
    FromLE(Load(mem, addr, 8))
  }

  // Pushing

  /** push_u64. */
  function PushWord(st: Stack, value: nat): (r: Option<Stack>)
    requires StackOk(st)
    ensures r.Some? ==> StackOk(r.value) && r.value.sp == st.sp - 8
    ensures r.None? <==> st.sp < STACK_BASE + 8
  {
    if st.sp < STACK_BASE + 8 then None else Some(Stack(Store(st.mem, st.sp - 8, LE(value, 8)), st.sp - 8))
  }

  /** Pushes words so that reading upwards from the new stack pointer gives them in order. */
  function PushWords(st: Stack, ws: seq<nat>): (r: Option<Stack>)
    requires StackOk(st)
    ensures r.Some? ==> StackOk(r.value) && r.value.sp == st.sp - 8 * |ws|
    ensures r.Some? <==> STACK_BASE + 8 * |ws| <= st.sp
    decreases |ws|
  {
    if ws == [] then Some(st)
    else
      var rest := PushWords(st, ws[1..]);
      if rest.None? then None else PushWord(rest.value, ws[0])
  }

  /** copy_string_to_stack: the string and its NUL end up at the new stack pointer. */
  function CopyString(st: Stack, s: Bytes): (r: Option<Stack>)
    requires StackOk(st)
    ensures r.Some? ==> StackOk(r.value) && r.value.sp == st.sp - |s| - 1
    ensures r.Some? <==> |s| < MAX_EXEC_STRING && STACK_BASE + |s| + 1 <= st.sp
  {
    if |s| >= MAX_EXEC_STRING then None
    else if st.sp < STACK_BASE + |s| + 1 then None
    else Some(Stack(Store(st.mem, st.sp - |s| - 1, s + [0]), st.sp - |s| - 1))
  }

  /** Copies strings in order; the pointers are where they went. */
  function CopyStrings(st: Stack, ss: seq<Bytes>): (r: Option<(Stack, seq<nat>)>)
    requires StackOk(st)
    ensures r.Some? ==> StackOk(r.value.0) && r.value.0.sp <= st.sp && |r.value.1| == |ss|
    decreases |ss|
  {
    if ss == [] then Some((st, []))
    else
      var one := CopyString(st, ss[0]);
      if one.None? then None
      else
        var rest := CopyStrings(one.value, ss[1..]);
        if rest.None? then None else Some((rest.value.0, [one.value.sp] + rest.value.1))
  }

  // The whole stack

  const PLATFORM: Bytes := [120, 56, 54, 95, 54, 52]

  /** The auxiliary vector in the order it is read. */
  function Aux(i: Info, execfn: nat, random: nat, platform: nat): (pairs: seq<(nat, nat)>)
    ensures |pairs| == 19
  {
    [(3, i.phdr), (4, i.phent), (5, i.phnum), (6, 4096), (7, i.base), (8, 0), (9, i.entry), (11, i.uid), (12, i.euid),
     (13, i.gid), (14, i.egid), (15, platform), (16, 0), (17, if i.frequency != 0 then i.frequency else 100), (26, 0),
     (23, 0), (25, random), (31, execfn), (0, 0)]
  }

  function Flatten(pairs: seq<(nat, nat)>): (ws: seq<nat>)
    ensures |ws| == 2 * |pairs|
  {
    if pairs == [] then [] else [pairs[0].0, pairs[0].1] + Flatten(pairs[1..])
  }

  function Vector(args: seq<nat>, envs: seq<nat>, aux: seq<(nat, nat)>): (ws: seq<nat>)
    ensures |ws| == 3 + |args| + |envs| + 2 * |aux|
  {
    [|args|] + args + [0] + envs + [0] + Flatten(aux)
  }

  /** The strings area: arguments (or the program's own path when there are none), environment, platform name and
      sixteen random bytes. */
  datatype Strings = Strings(stack: Stack, args: seq<nat>, envs: seq<nat>, platform: nat, random: nat)

  function Arguments(argv: seq<Bytes>, fallback: Bytes): (r: seq<Bytes>)
  {
    if argv == [] then [fallback] else argv
  }

  function PlaceStrings(mem: Bytes, args: seq<Bytes>, envp: seq<Bytes>, random: Bytes): (r: Option<Strings>)
    requires |mem| == STACK_SIZE && |random| == 16
    ensures r.Some? ==> StackOk(r.value.stack) && |r.value.args| == |args| && |r.value.envs| == |envp|
  {
    var a := CopyStrings(Stack(mem, STACK_TOP), args);
    if a.None? then None
    else
      var e := CopyStrings(a.value.0, envp);
      if e.None? then None
      else
        var p := CopyString(e.value.0, PLATFORM);
        if p.None? || p.value.sp < STACK_BASE + 16 then None
        else
          var sp := p.value.sp - 16;
          Some(Strings(Stack(Store(p.value.mem, sp, random), sp), a.value.1, e.value.1, p.value.sp, sp))
  }

  /** build_exec_stack. */
  function Build(mem: Bytes, argv: seq<Bytes>, envp: seq<Bytes>, fallback: Bytes, random: Bytes,
          info: Info): (r: Option<Stack>)
    requires |mem| == STACK_SIZE && |random| == 16
    ensures r.Some? ==> StackOk(r.value)
  {
    var s := PlaceStrings(mem, Arguments(argv, fallback), envp, random);
    if s.None? then None
    else
      var st := s.value.stack.(sp := s.value.stack.sp / 16 * 16);
      var aux := Aux(info, s.value.args[0], s.value.random, s.value.platform);
      var ws := Vector(s.value.args, s.value.envs, aux);
      if |ws| % 2 != 0 then
        var padded := PushWord(st, 0);
        if padded.None? then None else PushWords(padded.value, ws)
      else PushWords(st, ws)
  }

  // Reading it back, as a program's startup code does

  function ReadString(mem: Bytes, addr: nat): (r: Option<Bytes>)
    requires |mem| == STACK_SIZE
    decreases STACK_TOP - addr
  {
    if addr < STACK_BASE || addr >= STACK_TOP then None
    else if mem[addr - STACK_BASE] == 0 then Some([])
    else
      var rest := ReadString(mem, addr + 1);
      if rest.None? then None else Some([mem[addr - STACK_BASE]] + rest.value)
  }

  /** The strings that `n` pointers from `addr` on lead to. */
  function ReadStrings(mem: Bytes, addr: nat, n: nat): (r: Option<seq<Bytes>>)
    requires |mem| == STACK_SIZE
    decreases n
  {
    if n == 0 then Some([])
    else if addr < STACK_BASE || addr + 8 > STACK_TOP then None
    else
      var one, rest := ReadString(mem, Word(mem, addr)), ReadStrings(mem, addr + 8, n - 1);
      if one.None? || rest.None? then None else Some([one.value] + rest.value)
  }

  /** How many non-null words lie from `addr` on before a null one. */
  function CountWords(mem: Bytes, addr: nat): (r: Option<nat>)
    requires |mem| == STACK_SIZE
    decreases STACK_TOP - addr
  {
    if addr < STACK_BASE || addr + 8 > STACK_TOP then None
    else if Word(mem, addr) == 0 then Some(0)
    else
      var rest := CountWords(mem, addr + 8);
      if rest.None? then None else Some(1 + rest.value)
  }

  /** Pairs up to and including the one with key zero. */
  function ReadAux(mem: Bytes, addr: nat): (r: Option<seq<(nat, nat)>>)
    requires |mem| == STACK_SIZE
    decreases STACK_TOP - addr
  {
    if addr < STACK_BASE || addr + 16 > STACK_TOP then None
    else
      var pair := (Word(mem, addr), Word(mem, addr + 8));
      if pair.0 == 0 then Some([pair])
      else
        var rest := ReadAux(mem, addr + 16);
        if rest.None? then None else Some([pair] + rest.value)
  }

  datatype Image = Image(argv: seq<Bytes>, envp: seq<Bytes>, aux: seq<(nat, nat)>)

  function Parse(mem: Bytes, rsp: nat): (r: Option<Image>)
    requires |mem| == STACK_SIZE
  {
    if rsp < STACK_BASE || rsp + 8 > STACK_TOP then None
    else
      var argc := Word(mem, rsp);
      var ends := rsp + 8 + 8 * argc;
      if ends + 8 > STACK_TOP || Word(mem, ends) != 0 then None
      else
        var envc := CountWords(mem, ends + 8);
        if envc.None? then None
        else
          var argv, envp := ReadStrings(mem, rsp + 8, argc), ReadStrings(mem, ends + 8, envc.value);
          var aux := ReadAux(mem, ends + 16 + 8 * envc.value);
          if argv.None? || envp.None? || aux.None? then None else Some(Image(argv.value, envp.value, aux.value))
  }

  // What stays

  /** From `st` to `st'` the stack only grew downwards. */
  ghost predicate Keeps(st: Stack, st': Stack)
  {
    StackOk(st) && StackOk(st') && st'.sp <= st.sp && forall k :: st.sp - STACK_BASE <= k < STACK_SIZE ==>
        st'.mem[k] == st.mem[k]
  }

  lemma LoadKept(st: Stack, st': Stack, addr: nat, n: nat)
    requires Keeps(st, st') && st.sp <= addr && addr + n <= STACK_TOP
    ensures Load(st'.mem, addr, n) == Load(st.mem, addr, n)
  {
  }

  /** A terminated copy of `s` at `addr`. */
  ghost predicate HasString(mem: Bytes, addr: nat, s: Bytes)
  {
    |mem| == STACK_SIZE && STACK_BASE <= addr && addr + |s| + 1 <= STACK_TOP && Load(mem, addr, |s| + 1) == s + [0]
  }

  lemma StringKept(st: Stack, st': Stack, addr: nat, s: Bytes)
    requires Keeps(st, st') && st.sp <= addr && HasString(st.mem, addr, s)
    ensures HasString(st'.mem, addr, s)
  {
    LoadKept(st, st', addr, |s| + 1);
  }

  lemma {:induction false} ReadBack(mem: Bytes, addr: nat, s: Bytes)
    requires HasString(mem, addr, s) && CString(s)
    ensures ReadString(mem, addr) == Some(s)
    decreases |s|
  {
    var all := Load(mem, addr, |s| + 1);
    assert mem[addr - STACK_BASE] == all[0] == (s + [0])[0];
    if s != [] {
      assert s[0] in s;
      assert Load(mem, addr + 1, |s|) == all[1..] == s[1..] + [0];
      ReadBack(mem, addr + 1, s[1..]);
      assert [s[0]] + s[1..] == s;
    }
  }

  lemma CopyKeeps(st: Stack, s: Bytes)
    requires StackOk(st) && CopyString(st, s).Some?
    ensures var r := CopyString(st, s).value; Keeps(st, r) && HasString(r.mem, r.sp, s)
  {
    hide Store;
    var r := CopyString(st, s).value;
    assert Load(r.mem, r.sp, |s| + 1) == s + [0];
  }

  ghost predicate AllStrings(mem: Bytes, ptrs: seq<nat>, ss: seq<Bytes>, lo: nat)
  {
    |ptrs| == |ss| && forall i :: 0 <= i < |ss| ==> ptrs[i] >= lo && HasString(mem, ptrs[i], ss[i])
  }

  lemma {:induction false} CopyAllKeeps(st: Stack, ss: seq<Bytes>)
    requires StackOk(st) && CopyStrings(st, ss).Some?
    ensures var (r, ptrs) := CopyStrings(st, ss).value; Keeps(st, r) && AllStrings(r.mem, ptrs, ss, r.sp)
    decreases |ss|
  {
    hide CopyString, HasString;
    if ss != [] {
      var one := CopyString(st, ss[0]).value;
      CopyKeeps(st, ss[0]);
      CopyAllKeeps(one, ss[1..]);
      var (r, ptrs) := CopyStrings(one, ss[1..]).value;
      StringKept(one, r, one.sp, ss[0]);
    }
  }

  lemma StringsKept(st: Stack, st': Stack, ptrs: seq<nat>, ss: seq<Bytes>)
    requires Keeps(st, st') && AllStrings(st.mem, ptrs, ss, st.sp)
    ensures AllStrings(st'.mem, ptrs, ss, st.sp)
  {
    hide HasString;
    forall i | 0 <= i < |ss| ensures HasString(st'.mem, ptrs[i], ss[i]) {
      StringKept(st, st', ptrs[i], ss[i]);
    }
  }

  // Words

  /** The words from `addr` on are `ws`. */
  ghost predicate HasWords(mem: Bytes, addr: nat, ws: seq<nat>)
  {
    && |mem| == STACK_SIZE && STACK_BASE <= addr && addr + 8 * |ws| <= STACK_TOP
    && forall k {:trigger ws[k]} :: 0 <= k < |ws| ==> Word(mem, addr + 8 * k) == ws[k]
  }

  lemma PushKeeps(st: Stack, value: nat)
    requires StackOk(st) && value < U64 && PushWord(st, value).Some?
    ensures var r := PushWord(st, value).value; Keeps(st, r) && Word(r.mem, r.sp) == value
  {
    hide LE, FromLE, Bound, Store;
    var r := PushWord(st, value).value;
    Bounds();
    LERoundTrip(value, 8);
    assert Load(r.mem, r.sp, 8) == LE(value, 8);
  }

  lemma {:induction false} PushAllKeeps(st: Stack, ws: seq<nat>)
    requires StackOk(st) && PushWords(st, ws).Some? && forall k :: 0 <= k < |ws| ==> ws[k] < U64
    ensures var r := PushWords(st, ws).value; Keeps(st, r) && HasWords(r.mem, r.sp, ws)
    decreases |ws|
  {
    hide PushWord, Word;
    if ws != [] {
      var rest := PushWords(st, ws[1..]).value;
      PushAllKeeps(st, ws[1..]);
      PushKeeps(rest, ws[0]);
      var r := PushWord(rest, ws[0]).value;
      forall k | 0 <= k < |ws| ensures Word(r.mem, r.sp + 8 * k) == ws[k] {
        if k > 0 {
          assert ws[k] == ws[1..][k - 1];
          assert r.sp + 8 * k == rest.sp + 8 * (k - 1);
          WordKept(rest, r, rest.sp + 8 * (k - 1));
        }
      }
    }
  }

  lemma WordKept(st: Stack, st': Stack, addr: nat)
    requires Keeps(st, st') && st.sp <= addr && addr + 8 <= STACK_TOP
    ensures Word(st'.mem, addr) == Word(st.mem, addr)
  {
    LoadKept(st, st', addr, 8);
  }

  // Parsing

  lemma WordsSplit(mem: Bytes, addr: nat, x: seq<nat>, y: seq<nat>)
    requires HasWords(mem, addr, x + y)
    ensures HasWords(mem, addr, x) && HasWords(mem, addr + 8 * |x|, y)
  {
    hide Word;
    forall k | 0 <= k < |x| ensures Word(mem, addr + 8 * k) == x[k] {
      assert (x + y)[k] == x[k];
    }
    forall k | 0 <= k < |y| ensures Word(mem, addr + 8 * |x| + 8 * k) == y[k] {
      assert (x + y)[|x| + k] == y[k];
      assert addr + 8 * |x| + 8 * k == addr + 8 * (|x| + k);
    }
  }

  lemma {:induction false} StringsBack(mem: Bytes, addr: nat, ptrs: seq<nat>, ss: seq<Bytes>, lo: nat)
    requires HasWords(mem, addr, ptrs) && AllStrings(mem, ptrs, ss, lo) && forall i :: 0 <= i < |ss| ==> CString(ss[i])
    ensures ReadStrings(mem, addr, |ss|) == Some(ss)
    decreases |ss|
  {
    hide Word, HasString, ReadString, CString;
    if ss != [] {
      assert addr + 8 * 0 == addr && Word(mem, addr + 8 * 0) == ptrs[0];
      ReadBack(mem, ptrs[0], ss[0]);
      assert ptrs == [ptrs[0]] + ptrs[1..];
      WordsSplit(mem, addr, [ptrs[0]], ptrs[1..]);
      StringsBack(mem, addr + 8, ptrs[1..], ss[1..], lo);
      assert [ss[0]] + ss[1..] == ss;
    }
  }

  lemma {:induction false} CountBack(mem: Bytes, addr: nat, ptrs: seq<nat>)
    requires HasWords(mem, addr, ptrs + [0]) && forall i :: 0 <= i < |ptrs| ==> ptrs[i] > 0
    ensures CountWords(mem, addr) == Some(|ptrs|)
    decreases |ptrs|
  {
    hide Word;
    var ws := ptrs + [0];
    assert addr + 8 * 0 == addr && Word(mem, addr + 8 * 0) == ws[0];
    if ptrs != [] {
      assert ws == [ptrs[0]] + (ptrs[1..] + [0]);
      WordsSplit(mem, addr, [ptrs[0]], ptrs[1..] + [0]);
      CountBack(mem, addr + 8, ptrs[1..]);
    }
  }

  /** Only the last pair has key zero. */
  predicate Terminated(pairs: seq<(nat, nat)>)
  {
    |pairs| > 0 && pairs[|pairs| - 1].0 == 0 && forall i :: 0 <= i < |pairs| - 1 ==> pairs[i].0 != 0
  }

  lemma {:induction false} AuxBack(mem: Bytes, addr: nat, pairs: seq<(nat, nat)>)
    requires HasWords(mem, addr, Flatten(pairs)) && Terminated(pairs)
    ensures ReadAux(mem, addr) == Some(pairs)
    decreases |pairs|
  {
    hide Word;
    var ws := Flatten(pairs);
    assert ws[0] == pairs[0].0 && ws[1] == pairs[0].1;
    assert addr + 8 * 0 == addr && Word(mem, addr + 8 * 0) == ws[0] && Word(mem, addr + 8 * 1) == ws[1];
    if |pairs| == 1 {
      assert pairs == [pairs[0]];
    } else {
      WordsSplit(mem, addr, [pairs[0].0, pairs[0].1], Flatten(pairs[1..]));
      AuxBack(mem, addr + 16, pairs[1..]);
      assert pairs == [pairs[0]] + pairs[1..];
    }
  }

  /** Memory that holds a vector and its strings parses to them. */
  lemma ParseBack(mem: Bytes, rsp: nat, args: seq<nat>, envs: seq<nat>, aux: seq<(nat, nat)>, argv: seq<Bytes>,
          envp: seq<Bytes>)
    requires HasWords(mem, rsp, Vector(args, envs, aux)) && Terminated(aux)
    requires AllStrings(mem, args, argv, STACK_BASE) && AllStrings(mem, envs, envp, STACK_BASE)
    requires (forall i :: 0 <= i < |argv| ==> CString(argv[i])) && (forall i :: 0 <= i < |envp| ==> CString(envp[i]))
    ensures Parse(mem, rsp) == Some(Image(argv, envp, aux))
  {
    hide Word, HasString, CString, Flatten, ReadStrings, CountWords, ReadAux;
    var w0, w1, w2: seq<nat> := [|args|], args + [0], envs + [0];
    assert Vector(args, envs, aux) == w0 + (w1 + (w2 + Flatten(aux)));
    WordsSplit(mem, rsp, w0, w1 + (w2 + Flatten(aux)));
    WordsSplit(mem, rsp + 8, w1, w2 + Flatten(aux));
    WordsSplit(mem, rsp + 8, args, [0]);
    var ends := rsp + 8 + 8 * |args|;
    WordsSplit(mem, ends + 8, w2, Flatten(aux));
    WordsSplit(mem, ends + 8, envs, [0]);
    assert w0[0] == |args| && rsp + 8 * 0 == rsp && Word(mem, rsp + 8 * 0) == w0[0];
    var zero: seq<nat> := [0];
    assert zero[0] == 0 && ends + 8 * 0 == ends && Word(mem, ends + 8 * 0) == zero[0];
    StringsBack(mem, rsp + 8, args, argv, STACK_BASE);
    CountBack(mem, ends + 8, envs);
    StringsBack(mem, ends + 8, envs, envp, STACK_BASE);
    AuxBack(mem, ends + 16 + 8 * |envs|, aux);
  }

  // The main results

  lemma PlaceKeeps(mem: Bytes, args: seq<Bytes>, envp: seq<Bytes>, random: Bytes)
    requires |mem| == STACK_SIZE && |random| == 16 && PlaceStrings(mem, args, envp, random).Some?
    ensures var s := PlaceStrings(mem, args, envp, random).value;
            && AllStrings(s.stack.mem, s.args, args, s.stack.sp) && AllStrings(s.stack.mem, s.envs, envp, s.stack.sp)
            && s.platform >= s.stack.sp && HasString(s.stack.mem, s.platform, PLATFORM)
            && s.random == s.stack.sp && s.random + 16 <= STACK_TOP && Load(s.stack.mem, s.random, 16) == random
  {
    hide CopyStrings, CopyString, HasString, Store;
    var a := CopyStrings(Stack(mem, STACK_TOP), args).value;
    CopyAllKeeps(Stack(mem, STACK_TOP), args);
    var e := CopyStrings(a.0, envp).value;
    CopyAllKeeps(a.0, envp);
    StringsKept(a.0, e.0, a.1, args);
    var p := CopyString(e.0, PLATFORM).value;
    CopyKeeps(e.0, PLATFORM);
    StringsKept(e.0, p, e.1, envp);
    var st := Stack(Store(p.mem, p.sp - 16, random), p.sp - 16);
    assert Keeps(p, st) && Keeps(a.0, p);
    assert Load(st.mem, st.sp, 16) == random;
    StringsKept(a.0, st, a.1, args);
    StringsKept(e.0, st, e.1, envp);
    StringKept(p, st, p.sp, PLATFORM);
  }

  lemma AuxTerminated(i: Info, execfn: nat, random: nat, platform: nat)
    requires InfoOk(i) && execfn < U64 && random < U64 && platform < U64
    ensures var aux := Aux(i, execfn, random, platform);
            Terminated(aux) && forall k :: 0 <= k < |aux| ==> aux[k].0 < U64 && aux[k].1 < U64
  {
  }

  lemma {:induction false} FlattenBound(pairs: seq<(nat, nat)>)
    requires forall k :: 0 <= k < |pairs| ==> pairs[k].0 < U64 && pairs[k].1 < U64
    ensures forall k :: 0 <= k < |Flatten(pairs)| ==> Flatten(pairs)[k] < U64
  {
    if pairs != [] {
      FlattenBound(pairs[1..]);
    }
  }

  lemma VectorBound(args: seq<nat>, envs: seq<nat>, aux: seq<(nat, nat)>)
    requires |args| < U64 && (forall i :: 0 <= i < |args| ==> args[i] < U64)
    requires (forall i :: 0 <= i < |envs| ==> envs[i] < U64)
    requires forall k :: 0 <= k < |aux| ==> aux[k].0 < U64 && aux[k].1 < U64
    ensures forall k :: 0 <= k < |Vector(args, envs, aux)| ==> Vector(args, envs, aux)[k] < U64
  {
    FlattenBound(aux);
  }

  /** What build_exec_stack leaves on the stack when it succeeds. */
  ghost predicate Laid(st: Stack, args: seq<Bytes>, envp: seq<Bytes>, random: Bytes, info: Info, s: Strings)
  {
    && StackOk(st) && st.sp % 16 == 0 && |s.args| == |args| > 0
    && Parse(st.mem, st.sp) == Some(Image(args, envp, Aux(info, s.args[0], s.random, s.platform)))
    && ReadString(st.mem, s.args[0]) == Some(args[0]) && ReadString(st.mem, s.platform) == Some(PLATFORM)
    && STACK_BASE <= s.random && s.random + 16 <= STACK_TOP && Load(st.mem, s.random, 16) == random
  }

  lemma LaidOut(s: Strings, st: Stack, args: seq<Bytes>, envp: seq<Bytes>, random: Bytes, info: Info)
    requires |random| == 16 && args != [] && |args| <= MAX_EXEC_ARGS && InfoOk(info) && StackOk(s.stack)
    requires Keeps(s.stack, st)
    requires AllStrings(s.stack.mem, s.args, args, s.stack.sp) && AllStrings(s.stack.mem, s.envs, envp, s.stack.sp)
    requires s.platform >= s.stack.sp && HasString(s.stack.mem, s.platform, PLATFORM)
    requires s.random == s.stack.sp && s.random + 16 <= STACK_TOP && Load(s.stack.mem, s.random, 16) == random
    requires (forall i :: 0 <= i < |args| ==> CString(args[i])) && (forall i :: 0 <= i < |envp| ==> CString(envp[i]))
    requires st.sp % 16 == 0
    requires HasWords(st.mem, st.sp, Vector(s.args, s.envs, Aux(info, s.args[0], s.random, s.platform)))
    ensures Laid(st, args, envp, random, info, s)
  {
    hide Aux, Vector, Parse, ReadString, HasWords, Load, CString;
    StringsKept(s.stack, st, s.args, args);
    StringsKept(s.stack, st, s.envs, envp);
    StringKept(s.stack, st, s.platform, PLATFORM);
    LoadKept(s.stack, st, s.random, 16);
    assert HasString(st.mem, s.args[0], args[0]);
    AuxTerminated(info, s.args[0], s.random, s.platform);
    ParseBack(st.mem, st.sp, s.args, s.envs, Aux(info, s.args[0], s.random, s.platform), args, envp);
    ReadBack(st.mem, s.args[0], args[0]);
    assert CString(PLATFORM) by { PlatformIsString(); }
    ReadBack(st.mem, s.platform, PLATFORM);
  }

  lemma PlatformIsString()
    ensures CString(PLATFORM)
  {
  }

  lemma StackLaid(mem: Bytes, argv: seq<Bytes>, envp: seq<Bytes>, fallback: Bytes, random: Bytes, info: Info)
    requires |mem| == STACK_SIZE && |random| == 16 && InfoOk(info) && |argv| <= MAX_EXEC_ARGS && |envp| <= MAX_EXEC_ENVP
    requires CString(fallback) && (forall i :: 0 <= i < |argv| ==> CString(argv[i]))
             && (forall i :: 0 <= i < |envp| ==> CString(envp[i]))
    requires Build(mem, argv, envp, fallback, random, info).Some?
    ensures PlaceStrings(mem, Arguments(argv, fallback), envp, random).Some?
    ensures var st := Build(mem, argv, envp, fallback, random, info).value;
            Laid(st, Arguments(argv, fallback), envp, random, info,
                PlaceStrings(mem, Arguments(argv, fallback), envp, random).value)
  {
    hide PlaceStrings, Aux, Vector, PushWords, PushWord, Laid, AllStrings, HasString, CString;
    var args := Arguments(argv, fallback);
    var s := PlaceStrings(mem, args, envp, random).value;
    PlaceKeeps(mem, args, envp, random);
    PointersBound(s.stack.mem, s.args, args, s.stack.sp);
    PointersBound(s.stack.mem, s.envs, envp, s.stack.sp);
    PointerBound(s.stack.mem, s.platform, PLATFORM);
    var aux := Aux(info, s.args[0], s.random, s.platform);
    AuxTerminated(info, s.args[0], s.random, s.platform);
    VectorBound(s.args, s.envs, aux);
    var ws := Vector(s.args, s.envs, aux);
    var st0 := s.stack.(sp := s.stack.sp / 16 * 16);
    assert Keeps(s.stack, st0);
    var st1 := if |ws| % 2 != 0 then PushWord(st0, 0).value else st0;
    if |ws| % 2 != 0 {
      PushKeeps(st0, 0);
    }
    PushAllKeeps(st1, ws);
    LaidOut(s, PushWords(st1, ws).value, args, envp, random, info);
  }

  /** getauxval: the value of the first pair with that key. */
  function AuxValue(pairs: seq<(nat, nat)>, key: nat): (r: Option<nat>)
  {
    if pairs == [] then None else if pairs[0].0 == key then Some(pairs[0].1) else AuxValue(pairs[1..], key)
  }

  predicate DistinctKeys(pairs: seq<(nat, nat)>)
  {
    forall i, j :: 0 <= i < j < |pairs| ==> pairs[i].0 != pairs[j].0
  }

  /** What a program is told through its auxiliary vector, by the keys of the System V ABI for x86-64. */
  ghost predicate Told(aux: seq<(nat, nat)>, info: Info)
  {
    && DistinctKeys(aux) && |aux| == 19 && aux[18] == (0, 0)
    && AuxValue(aux, 3) == Some(info.phdr) && AuxValue(aux, 4) == Some(info.phent)
        && AuxValue(aux, 5) == Some(info.phnum)
    && AuxValue(aux, 6) == Some(4096) && AuxValue(aux, 7) == Some(info.base) && AuxValue(aux, 8) == Some(0)
    && AuxValue(aux, 9) == Some(info.entry) && AuxValue(aux, 11) == Some(info.uid)
        && AuxValue(aux, 12) == Some(info.euid)
    && AuxValue(aux, 13) == Some(info.gid) && AuxValue(aux, 14) == Some(info.egid) && AuxValue(aux, 16) == Some(0)
    && AuxValue(aux, 17) == Some(if info.frequency != 0 then info.frequency else 100)
    && AuxValue(aux, 23) == Some(0) && AuxValue(aux, 26) == Some(0)
  }

  /** The strings and bytes it is pointed to: its platform, its name and its random bytes. */
  ghost predicate Pointed(mem: Bytes, aux: seq<(nat, nat)>, name: Bytes, random: Bytes)
    requires |mem| == STACK_SIZE
  {
    var platform, bytes, execfn := AuxValue(aux, 15), AuxValue(aux, 25), AuxValue(aux, 31);
    && platform.Some? && ReadString(mem, platform.value) == Some([120, 56, 54, 95, 54, 52])
    && execfn.Some? && ReadString(mem, execfn.value) == Some(name)
    && bytes.Some? && STACK_BASE <= bytes.value && bytes.value + 16 <= STACK_TOP && Load(mem, bytes.value, 16) == random
  }

  lemma AuxKeysDistinct(i: Info, execfn: nat, random: nat, platform: nat)
    ensures DistinctKeys(Aux(i, execfn, random, platform))
  {
  }

  lemma AuxTells(i: Info, execfn: nat, random: nat, platform: nat)
    ensures var aux := Aux(i, execfn, random, platform);
            && Told(aux, i) && AuxValue(aux, 15) == Some(platform) && AuxValue(aux, 25) == Some(random)
            && AuxValue(aux, 31) == Some(execfn)
  {
    hide AuxValue, DistinctKeys;
    AuxKeysDistinct(i, execfn, random, platform);
    var aux := Aux(i, execfn, random, platform);
    FoundAt(aux, 0); FoundAt(aux, 1); FoundAt(aux, 2); FoundAt(aux, 3); FoundAt(aux, 4); FoundAt(aux, 5);
    FoundAt(aux, 6); FoundAt(aux, 7); FoundAt(aux, 8); FoundAt(aux, 9); FoundAt(aux, 10); FoundAt(aux, 11);
    FoundAt(aux, 12); FoundAt(aux, 13); FoundAt(aux, 14); FoundAt(aux, 15); FoundAt(aux, 16); FoundAt(aux, 17);
  }

  lemma {:induction false} FoundAt(pairs: seq<(nat, nat)>, k: nat)
    requires k < |pairs| && DistinctKeys(pairs)
    ensures AuxValue(pairs, pairs[k].0) == Some(pairs[k].1)
    decreases |pairs|
  {
    if k > 0 {
      FoundAt(pairs[1..], k - 1);
    }
  }

  /** The exec stack parses back: on success the stack pointer is 16-byte aligned, and reading upwards from it gives the
      argument strings, the environment strings and an auxiliary vector in which every key has its value. */
  lemma StackParsesBack(mem: Bytes, argv: seq<Bytes>, envp: seq<Bytes>, fallback: Bytes, random: Bytes, info: Info)
    requires |mem| == STACK_SIZE && |random| == 16 && InfoOk(info) && |argv| <= MAX_EXEC_ARGS && |envp| <= MAX_EXEC_ENVP
    requires CString(fallback) && (forall i :: 0 <= i < |argv| ==> CString(argv[i]))
             && (forall i :: 0 <= i < |envp| ==> CString(envp[i]))
    requires Build(mem, argv, envp, fallback, random, info).Some?
    ensures var st, args := Build(mem, argv, envp, fallback, random, info).value, if argv == [] then [fallback]
            else argv;
            var image := Parse(st.mem, st.sp);
            && st.sp % 16 == 0 && image.Some? && image.value.argv == args && image.value.envp == envp
            && Told(image.value.aux, info) && Pointed(st.mem, image.value.aux, args[0], random)
  {
    hide Build, PlaceStrings, Aux, Parse, ReadString, CString, Load, Told, AuxValue;
    StackLaid(mem, argv, envp, fallback, random, info);
    var s := PlaceStrings(mem, Arguments(argv, fallback), envp, random).value;
    AuxTells(info, s.args[0], s.random, s.platform);
  }

  lemma PointerBound(mem: Bytes, addr: nat, s: Bytes)
    requires HasString(mem, addr, s)
    ensures addr < U64
  {
  }

  lemma PointersBound(mem: Bytes, ptrs: seq<nat>, ss: seq<Bytes>, lo: nat)
    requires AllStrings(mem, ptrs, ss, lo)
    ensures forall i :: 0 <= i < |ptrs| ==> ptrs[i] < U64
  {
  }

  /** The addresses of the 8-byte stores of a sequence of pushes, in the order they are made. */
  function StoredAt(st: Stack, ws: seq<nat>): (addrs: seq<nat>)
    requires StackOk(st) && PushWords(st, ws).Some?
    ensures |addrs| == |ws|
    decreases |ws|
  {
    if ws == [] then [] else StoredAt(st, ws[1..]) + [PushWords(st, ws).value.sp]
  }

  /** The addresses of all 8-byte stores of build_exec_stack: the padding word, if there is one, and then the vector. */
  function BuildStores(mem: Bytes, argv: seq<Bytes>, envp: seq<Bytes>, fallback: Bytes, random: Bytes,
          info: Info): (addrs: seq<nat>)
    requires |mem| == STACK_SIZE && |random| == 16 && Build(mem, argv, envp, fallback, random, info).Some?
  {
    var s := PlaceStrings(mem, Arguments(argv, fallback), envp, random).value;
    var st := s.stack.(sp := s.stack.sp / 16 * 16);
    var ws := Vector(s.args, s.envs, Aux(info, s.args[0], s.random, s.platform));
    if |ws| % 2 != 0 then [PushWord(st, 0).value.sp] + StoredAt(PushWord(st, 0).value, ws) else StoredAt(st, ws)
  }

  predicate InOnePage(addr: nat)
  {
    STACK_BASE <= addr && (addr - STACK_BASE) % PAGE + 8 <= PAGE
  }

  lemma {:induction false} StoredInPages(st: Stack, ws: seq<nat>)
    requires StackOk(st) && st.sp % 8 == 0 && PushWords(st, ws).Some?
    ensures forall k :: 0 <= k < |ws| ==> InOnePage(StoredAt(st, ws)[k])
    decreases |ws|
  {
    if ws != [] {
      StoredInPages(st, ws[1..]);
      AlignedInPage(PushWords(st, ws).value.sp);
    }
  }

  lemma AlignedInPage(addr: nat)
    requires addr >= STACK_BASE && addr % 8 == 0
    ensures InOnePage(addr)
  {
    assert (addr - STACK_BASE) % 8 == 0;
  }

  lemma PushInPage(st: Stack, w: nat)
    requires StackOk(st) && st.sp % 8 == 0 && PushWord(st, w).Some?
    ensures PushWord(st, w).value.sp % 8 == 0 && InOnePage(PushWord(st, w).value.sp)
  {
    AlignedInPage(PushWord(st, w).value.sp);
  }

  lemma RoundedIsAligned(st: Stack)
    ensures st.(sp := st.sp / 16 * 16).sp % 8 == 0
  {
  }

  /** No 8-byte store that building a stack makes crosses a page. */
  lemma NoStoreCrossesPage(mem: Bytes, argv: seq<Bytes>, envp: seq<Bytes>, fallback: Bytes, random: Bytes, info: Info)
    requires |mem| == STACK_SIZE && |random| == 16 && Build(mem, argv, envp, fallback, random, info).Some?
    ensures var addrs := BuildStores(mem, argv, envp, fallback, random, info);
            forall k :: 0 <= k < |addrs| ==> InOnePage(addrs[k])
  {
    hide PlaceStrings, Aux, Vector, PushWord, PushWords, StoredAt, InOnePage;
    var s := PlaceStrings(mem, Arguments(argv, fallback), envp, random).value;
    var st := s.stack.(sp := s.stack.sp / 16 * 16);
    RoundedIsAligned(s.stack);
    var ws := Vector(s.args, s.envs, Aux(info, s.args[0], s.random, s.platform));
    if |ws| % 2 != 0 {
      PushInPage(st, 0);
      StoredInPages(PushWord(st, 0).value, ws);
    } else {
      StoredInPages(st, ws);
    }
  }

  // When it succeeds

  lemma {:induction false} CopyAllFits(st: Stack, ss: seq<Bytes>)
    requires StackOk(st) && STACK_BASE + MAX_EXEC_STRING * |ss| <= st.sp
    ensures CopyStrings(st, ss).Some? <==> forall i :: 0 <= i < |ss| ==> |ss[i]| < MAX_EXEC_STRING
    ensures CopyStrings(st, ss).Some? ==> CopyStrings(st, ss).value.0.sp >= st.sp - MAX_EXEC_STRING * |ss|
    decreases |ss|
  {
    if ss != [] {
      var one := CopyString(st, ss[0]);
      if one.Some? {
        CopyAllFits(one.value, ss[1..]);
        assert (forall i :: 0 <= i < |ss| ==> |ss[i]| < MAX_EXEC_STRING) <==>
               (forall i :: 0 <= i < |ss[1..]| ==> |ss[1..][i]| < MAX_EXEC_STRING) by {
          assert forall i :: 1 <= i < |ss| ==> ss[i] == ss[1..][i - 1];
        }
      }
    }
  }

  /** The stack never overflows: building fails exactly when some string is too long. */
  lemma BuildSucceedsIff(mem: Bytes, argv: seq<Bytes>, envp: seq<Bytes>, fallback: Bytes, random: Bytes, info: Info)
    requires |mem| == STACK_SIZE && |random| == 16 && |argv| <= MAX_EXEC_ARGS && |envp| <= MAX_EXEC_ENVP
    ensures Build(mem, argv, envp, fallback, random, info).Some? <==>
              && (forall i :: 0 <= i < |Arguments(argv, fallback)| ==> |Arguments(argv, fallback)[i]| < MAX_EXEC_STRING)
              && (forall i :: 0 <= i < |envp| ==> |envp[i]| < MAX_EXEC_STRING)
  {
    hide CopyStrings, Store, Vector, Aux;
    var args := Arguments(argv, fallback);
    CopyAllFits(Stack(mem, STACK_TOP), args);
    var a := CopyStrings(Stack(mem, STACK_TOP), args);
    if a.Some? {
      CopyAllFits(a.value.0, envp);
    }
  }
}
