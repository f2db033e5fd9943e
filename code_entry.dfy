/**
 * The code-entry tracker: the keypad step that runs first in every tick of
 * the user interface. It collects released keys into a fixed-length code
 * buffer while the siren sounds, raises the code-complete flag when the
 * buffer is full, and while the incorrect-code lockout is on it only
 * watches for a double release of '#', which clears the lockout.
 */
module CodeEntry {
  import opened TickInputs

  /**
   * The tracker's state: the code buffer (codeSequenceFromUserInterface),
   * the number of keys entered so far, the code-complete and incorrect-code
   * flags, and the count of '#' releases seen during a lockout.
   */
  datatype Keypad = Keypad(
    code: seq<char>,
    numberOfCodeChars: int,
    codeComplete: bool,
    incorrectCodeState: bool,
    numberOfHashKeyReleased: int)

  /**
   * What holds of the tracker between ticks: the buffer has the fixed code
   * length, the next write index is inside it, and a lockout has seen at
   * most one '#' that has not yet fired.
   */
  predicate KeypadValid(k: Keypad, codeNumberOfKeys: nat)
  {
    && |k.code| == codeNumberOfKeys
    && 0 <= k.numberOfCodeChars < codeNumberOfKeys
    && 0 <= k.numberOfHashKeyReleased <= 1
  }

  /** The state the file-level and function-level initialisers establish. */
  function InitialKeypad(codeNumberOfKeys: nat): (k: Keypad)
    requires codeNumberOfKeys > 0
    ensures KeypadValid(k, codeNumberOfKeys)
    ensures k.numberOfCodeChars == 0 && k.numberOfHashKeyReleased == 0
    ensures !k.codeComplete && !k.incorrectCodeState
    ensures forall i :: 0 <= i < |k.code| ==> k.code[i] == NO_KEY
  {
    Keypad(seq(codeNumberOfKeys, _ => NO_KEY), 0, false, false, 0)
  }

  /** A tick whose key the guard drops: no key, siren silent or system blocked. */
  predicate Ignored(t: TickInput, systemBlocked: bool)
  {
    t.keyReleased == NO_KEY || !t.sirenActive || systemBlocked
  }

  /** One keypad step: what the tracker does with the key released in one tick. */
  function KeypadUpdate(k: Keypad, keyReleased: char, sirenActive: bool, systemBlocked: bool,
                        codeNumberOfKeys: nat): (r: Keypad)
    requires KeypadValid(k, codeNumberOfKeys)
    ensures KeypadValid(r, codeNumberOfKeys)
    // the guard: a dropped key changes nothing at all
    ensures keyReleased == NO_KEY || !sirenActive || systemBlocked ==> r == k
    // normal state: the key lands at the write index and only that cell changes
    ensures keyReleased != NO_KEY && sirenActive && !systemBlocked && !k.incorrectCodeState ==>
      && r.code == k.code[k.numberOfCodeChars := keyReleased]
      && r.incorrectCodeState == k.incorrectCodeState
      && r.numberOfHashKeyReleased == k.numberOfHashKeyReleased
      && (k.numberOfCodeChars + 1 < codeNumberOfKeys ==>
            r.numberOfCodeChars == k.numberOfCodeChars + 1 && r.codeComplete == k.codeComplete)
      && (k.numberOfCodeChars + 1 == codeNumberOfKeys ==>
            r.numberOfCodeChars == 0 && r.codeComplete)
    // lockout: any key but '#' is ignored
    ensures k.incorrectCodeState && keyReleased != HASH_KEY ==> r == k
    // lockout: the first '#' is only counted
    ensures keyReleased == HASH_KEY && sirenActive && !systemBlocked && k.incorrectCodeState
            && k.numberOfHashKeyReleased == 0 ==>
      r == k.(numberOfHashKeyReleased := 1)
    // lockout: the second '#' performs the full reset
    ensures keyReleased == HASH_KEY && sirenActive && !systemBlocked && k.incorrectCodeState
            && k.numberOfHashKeyReleased == 1 ==>
      r == k.(numberOfHashKeyReleased := 0, numberOfCodeChars := 0,
              codeComplete := false, incorrectCodeState := false)
  {
    if keyReleased != NO_KEY then
      if sirenActive && !systemBlocked then
        if !k.incorrectCodeState then
          var code := k.code[k.numberOfCodeChars := keyReleased];
          var count := k.numberOfCodeChars + 1;
          if count >= codeNumberOfKeys then
            k.(code := code, numberOfCodeChars := 0, codeComplete := true)
          else
            k.(code := code, numberOfCodeChars := count)
        else if keyReleased == HASH_KEY then
          var hashes := k.numberOfHashKeyReleased + 1;
          if hashes >= 2 then
            k.(numberOfHashKeyReleased := 0, numberOfCodeChars := 0,
               codeComplete := false, incorrectCodeState := false)
          else
            k.(numberOfHashKeyReleased := hashes)
        else
          k
      else
        k
    else
      k
  }

  /** The keypad steps of a run of ticks, with the blocked flag held fixed. */
  function KeypadRun(k: Keypad, ins: seq<TickInput>, systemBlocked: bool,
                     codeNumberOfKeys: nat): (r: Keypad)
    requires KeypadValid(k, codeNumberOfKeys)
    ensures KeypadValid(r, codeNumberOfKeys)
    decreases |ins|
  {
    if ins == [] then k
    else
      var k' := KeypadUpdate(k, ins[0].keyReleased, ins[0].sirenActive, systemBlocked, codeNumberOfKeys);
      KeypadRun(k', ins[1..], systemBlocked, codeNumberOfKeys)
  }

  /** The keys actually released during a run of ticks, in order. */
  function Keys(ins: seq<TickInput>): (keys: seq<char>)
    ensures |keys| <= |ins|
    ensures forall i :: 0 <= i < |keys| ==> keys[i] != NO_KEY
  {
    if ins == [] then []
    else if ins[0].keyReleased == NO_KEY then Keys(ins[1..])
    else [ins[0].keyReleased] + Keys(ins[1..])
  }

  /** The number of ticks of a run that release '#'. */
  function HashCount(ins: seq<TickInput>): (n: nat)
    ensures n <= |ins|
  {
    if ins == [] then 0
    else (if ins[0].keyReleased == HASH_KEY then 1 else 0) + HashCount(ins[1..])
  }

  /** While every tick's key is dropped by the guard, the tracker does not change. */
  lemma {:induction false} IgnoredTicksLeaveKeypad(k: Keypad, ins: seq<TickInput>, systemBlocked: bool,
                                                   codeNumberOfKeys: nat)
    requires KeypadValid(k, codeNumberOfKeys)
    requires forall i :: 0 <= i < |ins| ==> Ignored(ins[i], systemBlocked)
    ensures KeypadRun(k, ins, systemBlocked, codeNumberOfKeys) == k
    decreases |ins|
  {
    if ins != [] {
      IgnoredTicksLeaveKeypad(k, ins[1..], systemBlocked, codeNumberOfKeys);
    }
  }

  /**
   * Code entry while the siren sounds and the system is neither blocked nor
   * locked out: the keys released are written in order from the write index
   * on; the count follows them until the buffer is full, at which moment the
   * complete flag rises and the count returns to 0. Before that the complete
   * flag is left as it was.
   */
  lemma {:induction false} CodeEntryFills(k: Keypad, ins: seq<TickInput>, codeNumberOfKeys: nat)
    requires KeypadValid(k, codeNumberOfKeys)
    requires !k.incorrectCodeState
    requires forall i :: 0 <= i < |ins| ==> ins[i].sirenActive
    requires k.numberOfCodeChars + |Keys(ins)| <= codeNumberOfKeys
    ensures var c, keys := k.numberOfCodeChars, Keys(ins);
      KeypadRun(k, ins, false, codeNumberOfKeys) ==
        if c + |keys| < codeNumberOfKeys then
          k.(code := k.code[..c] + keys + k.code[c + |keys|..], numberOfCodeChars := c + |keys|)
        else
          k.(code := k.code[..c] + keys, numberOfCodeChars := 0, codeComplete := true)
    decreases |ins|
  {
    if ins != [] {
      var t, rest := ins[0], ins[1..];
      var c := k.numberOfCodeChars;
      if t.keyReleased == NO_KEY {
        CodeEntryFills(k, rest, codeNumberOfKeys);
      } else {
        var k1 := KeypadUpdate(k, t.keyReleased, true, false, codeNumberOfKeys);
        assert Keys(ins) == [t.keyReleased] + Keys(rest);
        CodeEntryFills(k1, rest, codeNumberOfKeys);
        if c + 1 == codeNumberOfKeys {
          assert Keys(rest) == [];
          assert k1.code[..0] + [] + k1.code[0..] == k1.code;
          assert k.code[..c] + Keys(ins) == k1.code;
        } else {
          var m := |Keys(rest)|;
          assert k1.code[..c + 1] == k.code[..c] + [t.keyReleased];
          assert k1.code[..c + 1] + Keys(rest) == k.code[..c] + Keys(ins);
          if c + 1 + m < codeNumberOfKeys {
            assert k1.code[c + 1 + m..] == k.code[c + 1 + m..];
          }
        }
      }
    }
  }

  /**
   * Starting from an empty buffer, exactly codeNumberOfKeys released keys
   * complete the code: the buffer holds those keys, the flag is up and the
   * count is back to 0.
   */
  lemma CodeEntryCompletes(k: Keypad, ins: seq<TickInput>, codeNumberOfKeys: nat)
    requires KeypadValid(k, codeNumberOfKeys)
    requires !k.incorrectCodeState && k.numberOfCodeChars == 0
    requires forall i :: 0 <= i < |ins| ==> ins[i].sirenActive
    requires |Keys(ins)| == codeNumberOfKeys
    ensures KeypadRun(k, ins, false, codeNumberOfKeys) ==
            k.(code := Keys(ins), numberOfCodeChars := 0, codeComplete := true)
  {
    CodeEntryFills(k, ins, codeNumberOfKeys);
    assert k.code[..0] + Keys(ins) == Keys(ins);
  }

  /**
   * Outside a lockout the tracker never raises the incorrect-code flag and
   * never touches the '#' counter: a '#' left over from an earlier lockout
   * stays counted.
   */
  lemma {:induction false} CodeEntryKeepsHashCounter(k: Keypad, ins: seq<TickInput>, systemBlocked: bool,
                                                     codeNumberOfKeys: nat)
    requires KeypadValid(k, codeNumberOfKeys)
    requires !k.incorrectCodeState
    ensures var r := KeypadRun(k, ins, systemBlocked, codeNumberOfKeys);
      !r.incorrectCodeState && r.numberOfHashKeyReleased == k.numberOfHashKeyReleased
    decreases |ins|
  {
    if ins != [] {
      var k1 := KeypadUpdate(k, ins[0].keyReleased, ins[0].sirenActive, systemBlocked, codeNumberOfKeys);
      CodeEntryKeepsHashCounter(k1, ins[1..], systemBlocked, codeNumberOfKeys);
    }
  }

  /** During a lockout, keys other than '#' change nothing, whatever the siren does. */
  lemma {:induction false} LockoutIgnoresOtherKeys(k: Keypad, ins: seq<TickInput>, systemBlocked: bool,
                                                   codeNumberOfKeys: nat)
    requires KeypadValid(k, codeNumberOfKeys)
    requires k.incorrectCodeState
    requires forall i :: 0 <= i < |ins| ==> ins[i].keyReleased != HASH_KEY
    ensures KeypadRun(k, ins, systemBlocked, codeNumberOfKeys) == k
    decreases |ins|
  {
    if ins != [] {
      LockoutIgnoresOtherKeys(k, ins[1..], systemBlocked, codeNumberOfKeys);
    }
  }

  /**
   * During a lockout, while fewer '#' releases have been seen than the reset
   * needs, they are only counted: buffer, count and both flags stay put.
   */
  lemma {:induction false} LockoutCountsHashes(k: Keypad, ins: seq<TickInput>, codeNumberOfKeys: nat)
    requires KeypadValid(k, codeNumberOfKeys)
    requires k.incorrectCodeState
    requires forall i :: 0 <= i < |ins| ==> ins[i].sirenActive
    requires k.numberOfHashKeyReleased + HashCount(ins) <= 1
    ensures KeypadRun(k, ins, false, codeNumberOfKeys) ==
            k.(numberOfHashKeyReleased := k.numberOfHashKeyReleased + HashCount(ins))
    decreases |ins|
  {
    if ins != [] {
      var k1 := KeypadUpdate(k, ins[0].keyReleased, ins[0].sirenActive, false, codeNumberOfKeys);
      LockoutCountsHashes(k1, ins[1..], codeNumberOfKeys);
    }
  }

  /**
   * The reset gesture: from a fresh lockout the first '#' only counts and the
   * second clears the count, the buffer index, the complete flag and the
   * lockout itself.
   */
  lemma DoubleHashClearsLockout(k: Keypad, first: TickInput, second: TickInput, codeNumberOfKeys: nat)
    requires KeypadValid(k, codeNumberOfKeys)
    requires k.incorrectCodeState && k.numberOfHashKeyReleased == 0
    requires first.keyReleased == HASH_KEY && first.sirenActive
    requires second.keyReleased == HASH_KEY && second.sirenActive
    ensures KeypadRun(k, [first], false, codeNumberOfKeys) == k.(numberOfHashKeyReleased := 1)
    ensures KeypadRun(k, [first, second], false, codeNumberOfKeys) ==
            k.(numberOfHashKeyReleased := 0, numberOfCodeChars := 0,
               codeComplete := false, incorrectCodeState := false)
  {
    var k1 := KeypadUpdate(k, HASH_KEY, true, false, codeNumberOfKeys);
    assert [first, second][1..] == [second];
    assert KeypadRun(k1, [second], false, codeNumberOfKeys) ==
           KeypadUpdate(k1, HASH_KEY, true, false, codeNumberOfKeys);
  }

  /**
   * The '#' counter survives the lockout being cleared from outside: one '#'
   * during a lockout, the flag written off and later on again, and any code
   * entry in between, leave a lockout that a single '#' clears.
   */
  lemma LeftoverHashCarriesOver(k: Keypad, hash: TickInput, between: seq<TickInput>, again: TickInput,
                                codeNumberOfKeys: nat)
    requires KeypadValid(k, codeNumberOfKeys)
    requires k.incorrectCodeState && k.numberOfHashKeyReleased == 0
    requires hash.keyReleased == HASH_KEY && hash.sirenActive
    requires again.keyReleased == HASH_KEY && again.sirenActive
    ensures var counted := KeypadRun(k, [hash], false, codeNumberOfKeys);
      var cleared := counted.(incorrectCodeState := false);
      var relocked := KeypadRun(cleared, between, false, codeNumberOfKeys).(incorrectCodeState := true);
      var r := KeypadUpdate(relocked, again.keyReleased, again.sirenActive, false, codeNumberOfKeys);
      !r.incorrectCodeState && r.numberOfHashKeyReleased == 0 && r.numberOfCodeChars == 0 && !r.codeComplete
  {
    var counted := KeypadUpdate(k, hash.keyReleased, hash.sirenActive, false, codeNumberOfKeys);
    assert [hash][1..] == [];
    assert KeypadRun(k, [hash], false, codeNumberOfKeys) == KeypadRun(counted, [], false, codeNumberOfKeys);
    assert counted == k.(numberOfHashKeyReleased := 1);
    CodeEntryKeepsHashCounter(counted.(incorrectCodeState := false), between, false, codeNumberOfKeys);
  }
}
