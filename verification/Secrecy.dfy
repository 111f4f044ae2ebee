/** What a program at PL1 can learn of the machine: nothing of the privileged registers. */
module Secrecy {
  import opened Bits
  import opened Memory
  import opened Isa
  import opened Machine
  import opened Runs
  import D = Decoder

  /** A state with the exception registers and tables of another. */
  function WithSecrets(s: State, o: State): State {
    s.(elr := o.elr, esp := o.esp, eflags := o.eflags, einfo := o.einfo, eaddr := o.eaddr,
       evtable := o.evtable, ectableAddr := o.ectableAddr, ectable := o.ectable)
  }

  /** Two states that differ at most in what PL1 must not learn. */
  predicate LookAlike(s: State, o: State) {
    s.mem == o.mem && s.regs == o.regs && s.flags == o.flags && s.ip == o.ip && s.console == o.console
  }

  /** What an instruction does to o is what it does to s, with the secrets of o; a trap in one is a
      trap in the other. */
  ghost predicate Blind(r: Effect, o: State, r': Effect) {
    match r
    case Done(t) => r' == Done(WithSecrets(t, o))
    case Raised(_) => r'.Raised?
    case Abort => r'.Abort?
  }

  lemma MemoryBlind(s: State, o: State, i: Instr)
    requires LookAlike(s, o) && IsMemory(i)
    ensures Blind(Exec(s, i), o, Exec(o, i))
  {
  }

  lemma DataBlind(s: State, o: State, i: Instr)
    requires LookAlike(s, o) && !IsMemory(i) && !IsJump(i) && !IsSystem(i)
    ensures Blind(Exec(s, i), o, Exec(o, i))
  {
  }

  lemma AddressBlind(s: State, o: State, i: Instr)
    requires LookAlike(s, o) && (i.Jmpa? || i.Cjmpa? || i.Calla? || i.Ret?)
    ensures Blind(Exec(s, i), o, Exec(o, i))
  {
  }

  lemma RelativeBlind(s: State, o: State, i: Instr)
    requires LookAlike(s, o) && (i.Jmpr? || i.Callr?)
    ensures Blind(Exec(s, i), o, Exec(o, i))
  {
  }

  lemma BranchBlind(s: State, o: State, i: Instr)
    requires LookAlike(s, o) && i.Cjmpr?
    ensures Blind(Exec(s, i), o, Exec(o, i))
  {
  }

  lemma JumpBlind(s: State, o: State, i: Instr)
    requires LookAlike(s, o) && IsJump(i)
    ensures Blind(Exec(s, i), o, Exec(o, i))
  {
    if i.Cjmpr? { BranchBlind(s, o, i); } else if i.Jmpr? || i.Callr? { RelativeBlind(s, o, i); }
        else { AddressBlind(s, o, i); }
  }

  /** At PL1 no machine register but the flags can be read, and only the console be written. */
  lemma SystemBlind(s: State, o: State, i: Instr)
    requires LookAlike(s, o) && s.flags.pl1 && IsSystem(i)
    ensures Blind(Exec(s, i), o, Exec(o, i))
  {
  }

  lemma ExecBlind(s: State, o: State, i: Instr)
    requires LookAlike(s, o) && s.flags.pl1
    ensures Blind(Exec(s, i), o, Exec(o, i))
  {
    if IsMemory(i) { MemoryBlind(s, o, i); } else if IsJump(i) { JumpBlind(s, o, i); }
        else if IsSystem(i) { SystemBlind(s, o, i); } else { DataBlind(s, o, i); }
  }

  /** What one cycle does to o when it does r to s: the same, and at PL1 afterwards the same state but
      for the secrets. */
  ghost predicate BlindOutcome(r: Outcome, o: State, r': Outcome) {
    match r
    case Next(t) => r'.Next? && r'.s.flags.pl1 == t.flags.pl1 && (t.flags.pl1 ==> r'.s == WithSecrets(t, o))
    case Panic => r'.Panic?
  }

  lemma AfterBlind(s: State, o: State, i: Instr)
    requires LookAlike(s, o) && s.flags.pl1
    ensures BlindOutcome(After(Exec(s, i)), o, After(Exec(o, i)))
  {
    ExecBlind(s, o, i);
    if Exec(s, i).Raised? {
      var _ := RaisedContained(s, i);
      var _ := RaisedContained(o, i);
    }
  }

  /** Confidentiality: what one cycle at PL1 does to registers, memory, flags, instruction pointer and
      console, and whether it traps or panics, does not depend on the exception registers and
      tables. */
  lemma Pl1Blind(dec: Decoder, s: State, o: State)
    requires LookAlike(s, o) && s.flags.pl1
    ensures BlindOutcome(Step(dec, s), o, Step(dec, o))
  {
    if Fits(s.mem, s.ip, 4) {
      var d := dec(FetchWord(s));
      StepByMeaning(dec, s, d);
      StepByMeaning(dec, o, d);
      if d.Decoded? { AfterBlind(s, o, d.i); }
    }
  }

  /** Whole runs: as long as one of two look-alikes stays at PL1 so does the other, and they go
      through the same states but for what PL1 must not learn; they leave PL1, or panic, at the same
      cycle. */
  lemma {:induction false} Pl1Secrecy(dec: Decoder, s: State, o: State, n: nat)
    requires LookAlike(s, o) && s.flags.pl1
    requires forall k: nat, v: State :: k < n && Cycles(dec, s, k) == Next(v) ==> v.flags.pl1
    ensures BlindOutcome(Cycles(dec, s, n), o, Cycles(dec, o, n))
    decreases n
  {
    if n > 0 {
      Pl1Secrecy(dec, s, o, n - 1);
      BlindOnceMore(dec, s, o, n - 1, Cycles(dec, s, n - 1), Cycles(dec, o, n - 1));
    }
  }

  lemma BlindOnceMore(dec: Decoder, s: State, o: State, n: nat, r: Outcome, r': Outcome)
    requires Cycles(dec, s, n) == r && Cycles(dec, o, n) == r' && BlindOutcome(r, o, r')
    requires r.Next? ==> r.s.flags.pl1
    ensures BlindOutcome(Cycles(dec, s, n + 1), o, Cycles(dec, o, n + 1))
  {
    OneCycleMore(dec, s, n);
    OneCycleMore(dec, o, n);
    if r.Next? { BlindFurther(dec, r.s, o); }
  }

  lemma BlindFurther(dec: Decoder, u: State, o: State)
    requires u.flags.pl1
    ensures BlindOutcome(Step(dec, u), o, Step(dec, WithSecrets(u, o)))
  {
    Pl1Blind(dec, u, WithSecrets(u, o));
    SameSecrets(Step(dec, u), u, o, Step(dec, WithSecrets(u, o)));
  }

  lemma SameSecrets(r: Outcome, u: State, o: State, r': Outcome)
    requires BlindOutcome(r, WithSecrets(u, o), r')
    ensures BlindOutcome(r, o, r')
  {
  }

  lemma OneCycleMore(dec: Decoder, s: State, n: nat)
    ensures Cycles(dec, s, n + 1) == match Cycles(dec, s, n) case Next(u) => Step(dec, u) case Panic => Panic
  {
    OneMore(x => Step(dec, x), s, n);
  }
}
