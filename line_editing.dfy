/**
 * The word deletion both search fields bind to Option-Backspace and Control-W
 * (`on_delete_word` in `mylauncher/popup.py` and `mycli/popup.py`): from the
 * cursor, skip the spaces before it, then the word before those, and delete the
 * text between that position and the cursor.
 */
module LineEditing {

  /**
   * `[m, cursor)` is the run of spaces just before the cursor, reaching back to a
   * non-space or the start.
   */
  predicate SpacesBack(text: string, cursor: nat, m: nat)
    requires m <= cursor <= |text|
  {
    (forall k :: m <= k < cursor ==> text[k] == ' ') && (m == 0 || text[m - 1] != ' ')
  }

  /**
   * `pos` is where word deletion starts: `[pos, cursor)` is a run of non-spaces
   * reaching back to a space or the start, followed by the spaces before the cursor.
   */
  predicate IsWordStart(text: string, cursor: nat, pos: nat)
    requires cursor <= |text|
  {
    pos <= cursor && (pos == 0 || text[pos - 1] == ' ') &&
    exists m :: pos <= m <= cursor && SpacesBack(text, cursor, m) && forall k :: pos <= k < m ==> text[k] != ' '
  }

  /** The description above fixes the position: at most one `pos` satisfies it. */
  lemma WordStartUnique(text: string, cursor: nat, p: nat, q: nat)
    requires cursor <= |text|
    requires IsWordStart(text, cursor, p) && IsWordStart(text, cursor, q)
    ensures p == q
  {
    var mp :| p <= mp <= cursor && SpacesBack(text, cursor, mp) && forall k :: p <= k < mp ==> text[k] != ' ';
    var mq :| q <= mq <= cursor && SpacesBack(text, cursor, mq) && forall k :: q <= k < mq ==> text[k] != ' ';
    SpacesBackUnique(text, cursor, mp, mq);
  }

  /** The run of spaces before the cursor is unique. */
  lemma SpacesBackUnique(text: string, cursor: nat, m1: nat, m2: nat)
    requires m1 <= cursor && m2 <= cursor && cursor <= |text|
    requires SpacesBack(text, cursor, m1) && SpacesBack(text, cursor, m2)
    ensures m1 == m2
  {
  }

  /** The two `while` loops of `on_delete_word`: skip the spaces, then the word. */
  method WordStart(text: string, cursor: nat) returns (pos: nat)
    requires cursor <= |text|
    ensures IsWordStart(text, cursor, pos)
  {
    pos := cursor;
    while pos > 0 && text[pos - 1] == ' '
      invariant pos <= cursor
      invariant forall k :: pos <= k < cursor ==> text[k] == ' '
    {
      pos := pos - 1;
    }
    ghost var m := pos;
    assert SpacesBack(text, cursor, m);
    while pos > 0 && text[pos - 1] != ' '
      invariant pos <= m
      invariant forall k :: pos <= k < m ==> text[k] != ' '
    {
      pos := pos - 1;
    }
  }

  /** Tk's `entry.delete(first, last)`: the characters in `[first, last)` go. */
  function DeleteRange(text: string, first: nat, last: nat): (r: string)
    requires first <= last <= |text|
    ensures |r| == |text| - (last - first)
    ensures r[..first] == text[..first] && r[first..] == text[last..]
  {
    text[..first] + text[last..]
  }

  /**
   * `on_delete_word`: the new text and the new insertion cursor (Tk moves the
   * cursor to the start of a deleted range that ended at it).
   */
  method DeleteWord(text: string, cursor: nat) returns (newText: string, newCursor: nat)
    requires cursor <= |text|
    ensures IsWordStart(text, cursor, newCursor)
    ensures newText == DeleteRange(text, newCursor, cursor)
  {
    var pos := WordStart(text, cursor);
    newText := DeleteRange(text, pos, cursor);
    newCursor := pos;
  }
}
