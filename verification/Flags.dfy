/** Message flags: a list on disk, a case-insensitive set to every client. */
module Flags {
  import opened Text

  const SEEN := "\\Seen"
  const DELETED := "\\Deleted"
  const RECENT := "\\Recent"

  datatype FlagOp = FlagsSet | FlagsAdd | FlagsRemove

  /** The set a client sees: flags compare without regard to case. */
  function View(flags: seq<string>): set<string> {
    set f | f in flags :: Fold(f)
  }

  /** Names that are never stored. */
  predicate Untracked(flag: string) {
    flag == "" || EqualFold(flag, RECENT)
  }

  function UntrackedView(): set<string> {
    {"", Fold(RECENT)}
  }

  /** What index.json may hold: no empty flag, no \Recent, no case duplicate. */
  predicate Normal(flags: seq<string>) {
    && (forall i :: 0 <= i < |flags| ==> !Untracked(flags[i]))
    && (forall i, j :: 0 <= i < j < |flags| ==> !EqualFold(flags[i], flags[j]))
  }

  predicate Has(flags: seq<string>, want: string) {
    Fold(want) in View(flags)
  }

  method HasFlag(flags: seq<string>, want: string) returns (found: bool)
    ensures found == Has(flags, want)
  {
    for i := 0 to |flags|
      invariant forall j :: 0 <= j < i ==> !EqualFold(flags[j], want)
    {
      if EqualFold(flags[i], want) {
        return true;
      }
    }
    return false;
  }

  /** The flags worth keeping, first spelling of each, in the order given. */
  function Normalise(flags: seq<string>): (out: seq<string>) {
    if flags == [] then []
    else
      var flag := flags[|flags| - 1];
      var before := Normalise(flags[..|flags| - 1]);
      if Untracked(flag) || Has(before, flag) then before else before + [flag]
  }

  method NormaliseFlags(flags: seq<string>) returns (out: seq<string>)
    ensures out == Normalise(flags)
    ensures Normal(out)
  {
    out := [];
    for i := 0 to |flags|
      invariant out == Normalise(flags[..i])
    {
      assert flags[..i + 1][..i] == flags[..i];
      var flag := flags[i];
      if flag == "" || EqualFold(flag, RECENT) {
        continue;
      }
      var present := HasFlag(out, flag);
      if !present {
        out := out + [flag];
      }
    }
    assert flags[..|flags|] == flags;
    NormaliseMeaning(flags);
  }

  /** Which flags survive: exactly the tracked ones, as a set, and in normal form. */
  lemma {:induction false} NormaliseMeaning(flags: seq<string>)
    ensures Normal(Normalise(flags))
    ensures View(Normalise(flags)) == View(flags) - UntrackedView()
    ensures forall f :: f in Normalise(flags) ==> f in flags
  {
    if flags != [] {
      var init, flag := flags[..|flags| - 1], flags[|flags| - 1];
      NormaliseMeaning(init);
      assert flags == init + [flag];
      ViewAppend(init, flag);
      var before := Normalise(init);
      ViewAppend(before, flag);
      assert Untracked(flag) <==> Fold(flag) in UntrackedView() by {
        if Fold(flag) == "" { assert |flag| == 0; }
      }
      if !Untracked(flag) && !Has(before, flag) {
        forall i | 0 <= i < |before| ensures !EqualFold(before[i], flag) {
          assert before[i] in before;
        }
      }
    }
  }

  lemma ViewAppend(flags: seq<string>, flag: string)
    ensures View(flags + [flag]) == View(flags) + {Fold(flag)}
  {
    forall x | x in View(flags) + {Fold(flag)} ensures x in View(flags + [flag]) {
      if x == Fold(flag) {
        assert flag in flags + [flag];
      } else {
        var f :| f in flags && Fold(f) == x;
        assert f in flags + [flag];
      }
    }
  }

  lemma ViewConcat(a: seq<string>, b: seq<string>)
    ensures View(a + b) == View(a) + View(b)
  {
    forall x | x in View(a) + View(b) ensures x in View(a + b) {
      var f :| (f in a || f in b) && Fold(f) == x;
      assert f in a + b;
    }
  }

  lemma LastFlagIsNew(flags: seq<string>)
    requires Normal(flags) && flags != []
    ensures !Has(flags[..|flags| - 1], flags[|flags| - 1])
  {
    var init, flag := flags[..|flags| - 1], flags[|flags| - 1];
    forall f | f in init ensures Fold(f) != Fold(flag) {
      var i :| 0 <= i < |init| && init[i] == f;
      assert !EqualFold(flags[i], flag);
    }
  }

  lemma {:induction false} NormalIsKept(flags: seq<string>)
    requires Normal(flags)
    ensures Normalise(flags) == flags
  {
    if flags != [] {
      var init, flag := flags[..|flags| - 1], flags[|flags| - 1];
      assert forall i :: 0 <= i < |init| ==> init[i] == flags[i];
      NormalIsKept(init);
      LastFlagIsNew(flags);
      assert !Untracked(flag);
      assert flags == init + [flag];
    }
  }

  /** A normal list passes through unchanged, whatever is appended to it later:
      re-normalising stored flags, as Copy does, rewrites nothing. */
  lemma {:induction false} NormaliseKeepsNormalPrefix(flags: seq<string>, more: seq<string>)
    requires Normal(flags)
    ensures Normalise(flags) == flags
    ensures flags <= Normalise(flags + more)
    decreases |more|
  {
    NormalIsKept(flags);
    if more == [] {
      assert flags + more == flags;
    } else {
      var shorter := more[..|more| - 1];
      NormaliseKeepsNormalPrefix(flags, shorter);
      var all := flags + more;
      assert all[..|all| - 1] == flags + shorter;
    }
  }

  lemma NormaliseIdempotent(flags: seq<string>)
    ensures Normalise(Normalise(flags)) == Normalise(flags)
  {
    NormaliseMeaning(flags);
    NormaliseKeepsNormalPrefix(Normalise(flags), []);
  }

  /** The flags of `current` that are not listed in `flags`, in order. */
  function Without(current: seq<string>, flags: seq<string>): seq<string> {
    if current == [] then []
    else
      var flag := current[|current| - 1];
      var before := Without(current[..|current| - 1], flags);
      if Has(flags, flag) then before else before + [flag]
  }

  function Apply(current: seq<string>, flags: seq<string>, op: FlagOp): seq<string> {
    match op
    case FlagsSet => Normalise(flags)
    case FlagsAdd => Normalise(current + flags)
    case FlagsRemove => Without(current, flags)
  }

  method ApplyFlags(current: seq<string>, flags: seq<string>, op: FlagOp) returns (r: seq<string>)
    ensures r == Apply(current, flags, op)
  {
    match op
    case FlagsSet => r := NormaliseFlags(flags);
    case FlagsAdd => r := NormaliseFlags(current + flags);
    case FlagsRemove =>
      r := [];
      for i := 0 to |current|
        invariant r == Without(current[..i], flags)
      {
        assert current[..i + 1][..i] == current[..i];
        var listed := HasFlag(flags, current[i]);
        if !listed {
          r := r + [current[i]];
        }
      }
      assert current[..|current|] == current;
  }

  lemma {:induction false} WithoutMeaning(current: seq<string>, flags: seq<string>)
    requires Normal(current)
    ensures Normal(Without(current, flags))
    ensures View(Without(current, flags)) == View(current) - View(flags)
    ensures forall f :: f in Without(current, flags) ==> f in current
  {
    if current != [] {
      var init, flag := current[..|current| - 1], current[|current| - 1];
      WithoutMeaning(init, flags);
      assert current == init + [flag];
      ViewAppend(init, flag);
      var before := Without(init, flags);
      ViewAppend(before, flag);
      forall i | 0 <= i < |before| ensures !EqualFold(before[i], flag) {
        assert before[i] in before;
        var j :| 0 <= j < |init| && init[j] == before[i];
        assert !EqualFold(current[j], current[|current| - 1]);
      }
      LastFlagIsNew(current);
    }
  }

  /** On the case-insensitive set, the three operations are replacement, union and
      difference; the stored list stays normal, and adding never disturbs a flag
      that was already there. */
  lemma ApplyMeaning(current: seq<string>, flags: seq<string>, op: FlagOp)
    requires Normal(current)
    ensures Normal(Apply(current, flags, op))
    ensures View(Apply(current, flags, op)) ==
            match op
            case FlagsSet => View(flags) - UntrackedView()
            case FlagsAdd => View(current) + (View(flags) - UntrackedView())
            case FlagsRemove => View(current) - View(flags)
    ensures op.FlagsAdd? ==> current <= Apply(current, flags, op)
  {
    match op
    case FlagsSet => NormaliseMeaning(flags);
    case FlagsAdd =>
      NormaliseMeaning(current + flags);
      NormaliseMeaning(current);
      NormaliseKeepsNormalPrefix(current, flags);
      ViewConcat(current, flags);
    case FlagsRemove => WithoutMeaning(current, flags);
  }
}
