/** What the dispatcher answers to, against what the browser keeps for itself. */
module ShortcutDispatch {
  import opened Wrappers
  import opened Shortcuts
  import opened ShortcutsProofs
  import opened ShortcutRegistry

  /** The key event is one the browser keeps. */
  predicate ReservedEvent(e: KeyEvent) {
    ReservedMeaning(ParsedCombo(e.ctrlKey || e.metaKey, e.shiftKey, e.altKey, Lower(e.key)))
  }

  /** The plainest event that answers to a combo. */
  function PlainEvent(c: ParsedCombo): KeyEvent {
    KeyEvent(c.ctrlOrMeta, false, c.shift, c.alt, c.key, false)
  }

  lemma ReservedKeysAreLower(p: ParsedCombo)
    requires ReservedMeaning(p)
    ensures Lower(p.key) == p.key
  {
    ReservedKeysAreProper(p.key);
    LowerIsIdempotent(Trim(p.key));
  }

  /** Shift held although the combo does not ask for it never makes a free combo match a reserved event. */
  lemma ReservedMatchIsReserved(c: ParsedCombo, e: KeyEvent)
    requires EventMatches(c, e) && ReservedEvent(e)
    ensures ReservedMeaning(c)
  {
    assert CTRL_SHIFT_KEYS <= CTRL_KEYS;
  }

  /** A combo reads as reserved exactly when the dispatcher answers it to some key event the browser keeps. */
  lemma ReadsReservedIffMatchesReserved(combo: string)
    ensures ReadsReserved(combo) <==> exists e :: EventMatches(ParseCombo(combo), e) && ReservedEvent(e)
  {
    var c := ParseCombo(combo);
    if ReadsReserved(combo) {
      ReservedKeysAreLower(c);
      assert EventMatches(c, PlainEvent(c)) && ReservedEvent(PlainEvent(c));
    }
    if e :| EventMatches(c, e) && ReservedEvent(e) {
      ReservedMatchIsReserved(c, e);
    }
  }
}
