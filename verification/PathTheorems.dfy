/** What the two path normalisers promise, about their code. */
module PathTheorems {
  import opened Options
  import opened Paths
  import Vfs = VfsPath
  import Syscall = SyscallPath

  /** Path normal form: the result of normalize_path fits the buffer, splits into components none of which is empty,
      "." or "..", and is the join of the stack fold over the components of the input. */
  lemma NormalFormOfPath(path: Text, size: nat)
    ensures var r := Vfs.Normalize(path, size);
            r.Some? ==>
              && |r.value| < size && AllPlain(Components(r.value)) && r.value == Join(Components(r.value))
              && Fold([], Components(path), size) == Some(Components(r.value))
  {
    Vfs.NormalizeIsFold(path, size);
    NormalForm(path, size);
  }

  /** Normalising again changes nothing, in any buffer the result fits. */
  lemma NormalizeTwice(path: Text, size: nat, size2: nat)
    requires Vfs.Normalize(path, size).Some? && |Vfs.Normalize(path, size).value| < size2
    ensures Vfs.Normalize(Vfs.Normalize(path, size).value, size2) == Vfs.Normalize(path, size)
  {
    Vfs.NormalizeIsFold(path, size);
    Idempotent(path, size, size2);
    Vfs.NormalizeIsFold(Vfs.Normalize(path, size).value, size2);
  }

  /** With an empty base canonicalize_path does what normalize_path does, failures included. */
  lemma NormalisersAgree(input: Text, size: nat)
    ensures Syscall.Canonicalize([], input, size) == Vfs.Normalize(input, size)
  {
    Syscall.CanonicalizeIsFold([], input, size);
    Vfs.NormalizeIsFold(input, size);
  }

  /** An absolute path is normalised by either, whatever the base. */
  lemma AbsoluteIgnoresBase(base: Text, input: Text, size: nat)
    requires input != [] && input[0] == '/'
    ensures Syscall.Canonicalize(base, input, size) == Vfs.Normalize(input, size)
  {
    Syscall.CanonicalizeIsFold(base, input, size);
    Vfs.NormalizeIsFold(input, size);
  }

  /** canonicalize_path of a relative path is normalize_path of base and path joined by a slash, overflows included. */
  lemma RelativeIsNormalizedJoin(base: Text, input: Text, size: nat)
    requires base != [] && (input == [] || input[0] != '/')
    ensures Syscall.Canonicalize(base, input, size) == Vfs.Normalize(base + "/" + input, size)
  {
    Syscall.CanonicalizeIsFold(base, input, size);
    Vfs.NormalizeIsFold(base + "/" + input, size);
    RelativeIsJoined(base, input, size);
  }

  /** Normalising a and then resolving the relative path b against it is normalising a/b, overflows included. */
  lemma ResolvedInTwoSteps(a: Text, b: Text, size: nat)
    requires a != [] && (b == [] || b[0] != '/')
    ensures var r := Vfs.Normalize(a, size);
            Vfs.Normalize(a + "/" + b, size) == if r.None? then None else Syscall.Canonicalize(r.value, b, size)
  {
    Vfs.NormalizeIsFold(a, size);
    Vfs.NormalizeIsFold(a + "/" + b, size);
    TwoSteps(a, b, size);
    if Vfs.Normalize(a, size).Some? {
      Syscall.CanonicalizeIsFold(Vfs.Normalize(a, size).value, b, size);
    }
  }

  /** normalize_path succeeds exactly when the path resolved so far fits the buffer after every component, and then
      gives the resolved path. */
  lemma NormalizeFits(path: Text, size: nat)
    ensures Vfs.Normalize(path, size) ==
              if size > 0 && AlwaysFits([], Components(path), size) then Some(Join(Resolve([], Components(path))))
                  else None
  {
    Vfs.NormalizeIsFold(path, size);
    NormalizeSucceedsIff(path, size);
  }
}
