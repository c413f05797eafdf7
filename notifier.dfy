/**
 * The desktop notification sent after a shell command (`mycli/notifier.py`): a
 * title saying whether the command succeeded, and a message made of the
 * truncated command line and, when there is one, the truncated output or error.
 * Sending it is not modelled.
 */
module Notifier {
  import opened Text

  /** What is sent: a title and a message. */
  datatype Notification = Notification(title: string, message: string)

  const SuccessTitle: string := "Command Succeeded"
  const FailureTitle: string := "Command Failed"

  /** How much of the command line is shown. */
  const CommandLen: int := 50

  /** How much of the output or error is shown (`_truncate`'s default). */
  const DetailLen: int := 200

  /**
   * The message: `$ ` and the command truncated to 50; then, when the output or
   * error is not blank, a line break and that text stripped and truncated to 200.
   */
  function Message(command: string, detail: string): (r: string)
    ensures IsBlank(detail) ==> r == "$ " + Truncate(command, CommandLen)
    ensures !IsBlank(detail) ==>
      r == "$ " + Truncate(command, CommandLen) + "\n" + Truncate(Strip(detail), DetailLen)
    ensures |r| <= 2 + CommandLen + 1 + DetailLen
  {
    var message := "$ " + Truncate(command, CommandLen);
    if Strip(detail) != "" then message + "\n" + Truncate(Strip(detail), DetailLen) else message
  }

  /** `notify_success(command, output)`. */
  function NotifySuccess(command: string, output: string): (n: Notification)
    ensures n.title == SuccessTitle && n.message == Message(command, output)
  {
    Notification(SuccessTitle, Message(command, output))
  }

  /** `notify_failure(command, error)`. */
  function NotifyFailure(command: string, error: string): (n: Notification)
    ensures n.title == FailureTitle && n.message == Message(command, error)
  {
    Notification(FailureTitle, Message(command, error))
  }

  /** Success and failure notifications differ in their title only. */
  lemma TitlesDiffer(command: string, detail: string)
    ensures NotifySuccess(command, detail).title != NotifyFailure(command, detail).title
    ensures NotifySuccess(command, detail).message == NotifyFailure(command, detail).message
  {
  }

  /** Truncation adds no line break. */
  lemma TruncateNoNewline(text: string, maxLen: int)
    requires '\n' !in text
    ensures '\n' !in Truncate(text, maxLen)
  {
    if |text| > maxLen {
      var p := Take(text, maxLen - 3);
      assert forall k :: 0 <= k < |p| ==> p[k] == text[k];
      assert Truncate(text, maxLen) == p + "...";
    }
  }

  /**
   * Reading the message back line by line: for a one-line command and a one-line
   * detail, the first line is the shown command and the second, present exactly
   * when the detail is not blank, is the shown detail.
   */
  lemma MessageLines(command: string, detail: string)
    requires '\n' !in command && '\n' !in detail
    ensures var lines := Split(Message(command, detail), '\n');
      lines[0] == "$ " + Truncate(command, CommandLen) &&
      (IsBlank(detail) ==> |lines| == 1) &&
      (!IsBlank(detail) ==> |lines| == 2 && lines[1] == Truncate(Strip(detail), DetailLen))
  {
    var head := "$ " + Truncate(command, CommandLen);
    TruncateNoNewline(command, CommandLen);
    SplitNoSep(head, '\n');
    if !IsBlank(detail) {
      var tail := Truncate(Strip(detail), DetailLen);
      StripChars(detail);
      TruncateNoNewline(Strip(detail), DetailLen);
      SplitNoSep(tail, '\n');
      SplitConcat(head, tail, '\n');
      assert Message(command, detail) == head + ['\n'] + tail;
    }
  }
}
