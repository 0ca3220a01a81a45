/** build_exec_stack as the kernel runs it: a descending stack pointer and stores into the stack pages. */
module ExecStackBuilder {
  import opened Options
  import opened LittleEndian
  import opened ExecStack

  class UserStack {
    const mem: array<byte>
    var sp: nat

    ghost predicate Valid()
      reads this, mem
    {
      mem.Length == STACK_SIZE && StackOk(State())
    }

    function State(): (r: Stack)
      reads this, mem
    {
      Stack(mem[..], sp)
    }

    constructor ()
      ensures Valid() && fresh(mem) && sp == STACK_TOP
    {
      mem := new byte[STACK_SIZE](_ => 0);
      sp := STACK_TOP;
    }

    /** Byte stores through the page pointers. */
    method StoreBytes(addr: nat, data: Bytes)
      requires mem.Length == STACK_SIZE && STACK_BASE <= addr && addr + |data| <= STACK_TOP
      modifies mem
      ensures mem[..] == Store(old(mem[..]), addr, data)
    {
      var at := addr - STACK_BASE;
      var i := 0;
      while i < |data|
        invariant 0 <= i <= |data|
        invariant forall k :: 0 <= k < STACK_SIZE ==> mem[k] == if at <= k < at + i then data[k - at] else old(mem[k])
      {
        mem[at + i] := data[i];
        i := i + 1;
      }
    }

    /** push_u64. */
    method PushU64(value: nat) returns (ok: bool)
      requires Valid()
      modifies this, mem
      ensures Valid()
      ensures var r := PushWord(old(State()), value); ok == r.Some? && State() == if ok then r.value else old(State())
    {
      hide Store, LE;
      if sp < STACK_BASE + 8 { return false; }
      sp := sp - 8;
      StoreBytes(sp, LE(value, 8));
      ok := true;
    }

    /** Pushes `ws` from last to first. */
    method PushAll(ws: seq<nat>) returns (ok: bool)
      requires Valid()
      modifies this, mem
      ensures Valid()
      ensures var r := PushWords(old(State()), ws); ok == r.Some? && (ok ==> State() == r.value)
    {
      hide PushWord;
      var i := |ws|;
      assert ws[i..] == [];
      while i > 0
        invariant 0 <= i <= |ws| && Valid()
        invariant PushWords(old(State()), ws[i..]) == Some(State())
      {
        assert ws[i - 1..][1..] == ws[i..] && ws[i - 1..][0] == ws[i - 1];
        ok := PushU64(ws[i - 1]);
        if !ok {
          PushFails(old(State()), ws, i - 1);
          return;
        }
        i := i - 1;
      }
      assert ws[0..] == ws;
      ok := true;
    }

    /** copy_string_to_stack. */
    method CopyCString(s: Bytes) returns (ok: bool, ptr: nat)
      requires Valid()
      modifies this, mem
      ensures Valid()
      ensures var r := CopyString(old(State()), s);
              ok == r.Some? && State() == (if ok then r.value else old(State())) && (ok ==> ptr == sp)
    {
      hide Store;
      ptr := 0;
      if |s| >= MAX_EXEC_STRING { return false, 0; }
      var len := |s| + 1;
      if sp < STACK_BASE + len { return false, 0; }
      sp := sp - len;
      StoreBytes(sp, s + [0]);
      ok, ptr := true, sp;
    }

    method CopyAll(ss: seq<Bytes>) returns (ok: bool, ptrs: seq<nat>)
      requires Valid()
      modifies this, mem
      ensures Valid()
      ensures var r := CopyStrings(old(State()), ss);
              ok == r.Some? && (ok ==> State() == r.value.0 && ptrs == r.value.1)
    {
      hide CopyString;
      var i := 0;
      ptrs := [];
      assert ss[0..] == ss;
      while i < |ss|
        invariant 0 <= i <= |ss| && Valid()
        invariant var whole, rest := CopyStrings(old(State()), ss), CopyStrings(State(), ss[i..]);
                  whole.Some? == rest.Some? && (rest.Some? ==>
                      whole.value.0 == rest.value.0 && whole.value.1 == ptrs + rest.value.1)
      {
        assert ss[i..][1..] == ss[i + 1..];
        var ptr;
        ok, ptr := CopyCString(ss[i]);
        if !ok { return; }
        ptrs := ptrs + [ptr];
        i := i + 1;
      }
      assert ss[i..] == [] && ptrs + [] == ptrs;
      ok := true;
    }

    /** The strings part of build_exec_stack; the random bytes come from the caller. */
    method PlaceAll(args: seq<Bytes>, envp: seq<Bytes>, random: Bytes)
            returns (ok: bool, argPtrs: seq<nat>, envPtrs: seq<nat>, platform: nat)
      requires Valid() && |random| == 16
      modifies this, mem
      ensures Valid()
      ensures var r := PlaceStrings(old(mem[..]), args, envp, random);
              ok == r.Some? && (ok ==> r.value == Strings(State(), argPtrs, envPtrs, platform, sp))
    {
      hide CopyStrings, CopyString, Store;
      envPtrs, platform := [], 0;
      sp := STACK_TOP;
      ok, argPtrs := CopyAll(args);
      if !ok { return; }
      ok, envPtrs := CopyAll(envp);
      if !ok { return; }
      ok, platform := CopyCString(PLATFORM);
      if !ok { return; }
      if sp < STACK_BASE + 16 { return false, argPtrs, envPtrs, platform; }
      sp := sp - 16;
      StoreBytes(sp, random);
    }

    /** build_exec_stack. */
    method BuildExecStack(argv: seq<Bytes>, envp: seq<Bytes>, fallback: Bytes, random: Bytes, info: Info)
            returns (ok: bool, rsp: nat)
      requires Valid() && |random| == 16
      modifies this, mem
      ensures Valid()
      ensures var r := Build(old(mem[..]), argv, envp, fallback, random, info);
              ok == r.Some? && (ok ==> State() == r.value && rsp == r.value.sp)
    {
      hide PlaceStrings, PushWords, PushWord, Aux, Vector;
      rsp := 0;
      var args, envs, platform;
      ok, args, envs, platform := PlaceAll(Arguments(argv, fallback), envp, random);
      if !ok { return; }
      var seed := sp;
      sp := sp / 16 * 16;
      var ws := Vector(args, envs, Aux(info, args[0], seed, platform));
      if |ws| % 2 != 0 {
        ok := PushU64(0);
        if !ok { return; }
      }
      ok := PushAll(ws);
      rsp := sp;
    }
  }

  lemma {:induction false} PushFails(st: Stack, ws: seq<nat>, i: nat)
    requires StackOk(st) && i <= |ws| && PushWords(st, ws[i..]).None?
    ensures PushWords(st, ws).None?
    decreases i
  {
    if i == 0 {
      assert ws[0..] == ws;
    }
  }
}
