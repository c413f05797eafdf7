/**
 * The launcher's TOML settings (`mylauncher/user_config.py`): the two-level
 * lookup with a default, and the line-oriented rewrite that updates one
 * `key = value` line of a section while keeping the rest of the file, its
 * comments and its layout.
 */
module UserConfig {
  import opened Text
  import opened Optional

  // ---------------------------------------------------------------------------
  // Lookup.

  /** A parsed TOML value: a table of further values, or any other value (shown by its text). */
  datatype TomlValue =
    | Table(entries: map<string, TomlValue>)
    | Scalar(text: string)

  /**
   * `config.get(section, {}).get(key, default)` on the parsed file. `None` stands
   * for the `AttributeError` raised when the section name holds a plain value
   * rather than a table.
   */
  function Get(config: map<string, TomlValue>, section: string, key: string, default: TomlValue): (r: Option<TomlValue>)
    ensures section !in config ==> r == Some(default)
    ensures section in config && config[section].Table? ==>
      r.Some? && (key in config[section].entries ==> r.value == config[section].entries[key]) &&
      (key !in config[section].entries ==> r.value == default)
    ensures section in config && !config[section].Table? ==> r == None
  {
    var table := if section in config then config[section] else Table(map[]);
    match table
    case Table(entries) => Some(if key in entries then entries[key] else default)
    case Scalar(_) => None
  }

  /** A missing section or key falls back to the default, whatever the other sections hold. */
  lemma GetDefault(config: map<string, TomlValue>, section: string, key: string, default: TomlValue)
    requires section !in config || (config[section].Table? && key !in config[section].entries)
    ensures Get(config, section, key, default) == Some(default)
  {
  }

  // ---------------------------------------------------------------------------
  // Formatting a value for TOML.

  /** The Python values `set` accepts; a float carries its `str()` text, any other object its `str()` text. */
  datatype PyValue =
    | PBool(b: bool)
    | PStr(s: string)
    | PInt(i: int)
    | PFloat(repr: string)
    | POther(text: string)

  /** The decimal digits of a natural number, most significant first. */
  function NatToString(n: nat): (r: string)
    ensures |r| >= 1
    ensures forall k :: 0 <= k < |r| ==> '0' <= r[k] <= '9'
    ensures |r| > 1 ==> r[0] != '0'
    decreases n
  {
    var d := ['0' + (n % 10) as char];
    if n < 10 then d else NatToString(n / 10) + d
  }

  /** The value of a string of decimal digits. */
  function DigitsValue(s: string): nat
    requires forall k :: 0 <= k < |s| ==> '0' <= s[k] <= '9'
    decreases |s|
  {
    if s == [] then 0 else DigitsValue(s[..|s| - 1]) * 10 + (s[|s| - 1] - '0') as nat
  }

  /** Reading the digits back gives the number. */
  lemma {:induction false} NatToStringValue(n: nat)
    ensures DigitsValue(NatToString(n)) == n
    decreases n
  {
    var r := NatToString(n);
    if n >= 10 {
      NatToStringValue(n / 10);
      assert r[..|r| - 1] == NatToString(n / 10);
    }
  }

  /** Python's `str(i)` for an `int`. */
  function IntToString(i: int): (r: string)
    ensures i < 0 ==> |r| >= 2 && r[0] == '-' && DigitsOnly(r[1..]) && DigitsValue(r[1..]) == -i && r[1] != '0'
    ensures i >= 0 ==> DigitsOnly(r) && DigitsValue(r) == i && (|r| > 1 ==> r[0] != '0')
  {
    if i < 0 then
      NatToStringValue(-i);
      "-" + NatToString(-i)
    else
      NatToStringValue(i);
      NatToString(i)
  }

  /** A non-empty run of decimal digits. */
  predicate DigitsOnly(s: string) {
    |s| >= 1 && forall k :: 0 <= k < |s| ==> '0' <= s[k] <= '9'
  }

  /** The TOML text `set` writes: `true`/`false` for a bool (tested before int), quoted strings, `str()` of numbers, anything else quoted. */
  function FormatValue(v: PyValue): (r: string)
    ensures v.PBool? ==> r == (if v.b then "true" else "false")
    ensures v.PStr? ==> |r| == |v.s| + 2 && r[0] == '"' && r[|r| - 1] == '"' && r[1..|r| - 1] == v.s
    ensures v.PInt? && v.i < 0 ==> |r| >= 2 && r[0] == '-' && DigitsOnly(r[1..]) && DigitsValue(r[1..]) == -v.i && r[1] != '0'
    ensures v.PInt? && v.i >= 0 ==> DigitsOnly(r) && DigitsValue(r) == v.i && (|r| > 1 ==> r[0] != '0')
    ensures v.PFloat? ==> r == v.repr
    ensures v.POther? ==> |r| == |v.text| + 2 && r[0] == '"' && r[|r| - 1] == '"' && r[1..|r| - 1] == v.text
  {
    match v
    case PBool(b) => if b then "true" else "false"
    case PStr(s) => "\"" + s + "\""
    case PInt(i) => IntToString(i)
    case PFloat(repr) => repr
    case POther(text) => "\"" + text + "\""
  }

  // ---------------------------------------------------------------------------
  // The line rewrite.

  /** A stripped line that opens a section: it starts with `[` and ends with `]`. */
  predicate IsHeader(stripped: string) {
    StartsWith(stripped, "[") && EndsWith(stripped, "]")
  }

  /** A line that opens a section once stripped. */
  predicate HeaderLine(line: string) {
    IsHeader(Strip(line))
  }

  /** A stripped line that starts with `key ` or `key=`. */
  predicate KeyLineMatches(stripped: string, key: string) {
    StartsWith(stripped, key + " ") || StartsWith(stripped, key + "=")
  }

  /** The key test is an exact match of the key followed by a space or `=`; so `keyx = 1` never matches `key`. */
  lemma KeyLineMatchesIff(stripped: string, key: string)
    ensures KeyLineMatches(stripped, key) <==>
      StartsWith(stripped, key) && |stripped| > |key| && (stripped[|key|] == ' ' || stripped[|key|] == '=')
  {
    if StartsWith(stripped, key) && |stripped| > |key| {
      assert stripped[..|key| + 1] == stripped[..|key|] + [stripped[|key|]];
    }
    if StartsWith(stripped, key + " ") {
      assert stripped[..|key|] == (key + " ")[..|key|];
    }
    if StartsWith(stripped, key + "=") {
      assert stripped[..|key|] == (key + "=")[..|key|];
    }
  }

  /** Whether the line before position `i` left the scan inside `[section]`: the last header seen names it. */
  predicate InSectionAt(lines: seq<string>, i: nat, section: string)
    requires i <= |lines|
    decreases i
  {
    if i == 0 then false
    else if HeaderLine(lines[i - 1]) then Strip(lines[i - 1]) == "[" + section + "]"
    else InSectionAt(lines, i - 1, section)
  }

  /** The position of the last header line before position `i`, if any. */
  function LastHeaderBefore(lines: seq<string>, i: nat): (r: Option<nat>)
    requires i <= |lines|
    ensures r.Some? ==> r.value < i && HeaderLine(lines[r.value])
    ensures r.Some? ==> forall k :: r.value < k < i ==> !HeaderLine(lines[k])
    ensures r.None? ==> forall k :: 0 <= k < i ==> !HeaderLine(lines[k])
    decreases i
  {
    if i == 0 then None
    else if HeaderLine(lines[i - 1]) then Some(i - 1)
    else LastHeaderBefore(lines, i - 1)
  }

  /** The scan is inside `[section]` exactly when the last header before the line is `[section]`. */
  lemma {:induction false} InSectionAtIff(lines: seq<string>, i: nat, section: string)
    requires i <= |lines|
    ensures InSectionAt(lines, i, section) <==>
      LastHeaderBefore(lines, i).Some? && Strip(lines[LastHeaderBefore(lines, i).value]) == "[" + section + "]"
    decreases i
  {
    if i > 0 && !HeaderLine(lines[i - 1]) {
      InSectionAtIff(lines, i - 1, section);
    }
  }

  /** A line `set` may rewrite: a non-header line inside the section that starts with the key and holds an `=`. */
  predicate IsCandidate(lines: seq<string>, i: nat, section: string, key: string)
    requires i < |lines|
  {
    !HeaderLine(lines[i]) && InSectionAt(lines, i, section) &&
    KeyLineMatches(Strip(lines[i]), key) && '=' in lines[i]
  }

  /** The first candidate line at or after `from`. */
  function FirstCandidateFrom(lines: seq<string>, section: string, key: string, from: nat): (r: Option<nat>)
    requires from <= |lines|
    ensures r.Some? ==> from <= r.value < |lines| && IsCandidate(lines, r.value, section, key)
    ensures r.Some? ==> forall j :: from <= j < r.value ==> !IsCandidate(lines, j, section, key)
    ensures r.None? ==> forall j :: from <= j < |lines| ==> !IsCandidate(lines, j, section, key)
    decreases |lines| - from
  {
    if from == |lines| then None
    else if IsCandidate(lines, from, section, key) then Some(from)
    else FirstCandidateFrom(lines, section, key, from + 1)
  }

  /** The line `set` rewrites, if any. */
  function FirstCandidate(lines: seq<string>, section: string, key: string): (r: Option<nat>)
    ensures r.Some? ==> r.value < |lines| && IsCandidate(lines, r.value, section, key)
    ensures r.Some? ==> forall j :: 0 <= j < r.value ==> !IsCandidate(lines, j, section, key)
    ensures r.None? ==> forall j :: 0 <= j < |lines| ==> !IsCandidate(lines, j, section, key)
  {
    FirstCandidateFrom(lines, section, key, 0)
  }

  /** The text before the first `=` of a line. */
  function KeyPart(line: string): (r: string)
    requires '=' in line
    ensures '=' !in r
  {
    line[..IndexOfChar(line, '=')]
  }

  /** The text after the first `=` of a line. */
  function AfterEquals(line: string): (r: string)
    requires '=' in line
    ensures |r| < |line|
  {
    line[IndexOfChar(line, '=') + 1..]
  }

  /** The text after the first `#` that follows the first `=` of a line, if there is such a `#`. */
  function RawComment(line: string): (r: Option<string>)
    ensures r.Some? <==> '=' in line && '#' in AfterEquals(line)
    ensures r.Some? ==> |r.value| < |AfterEquals(line)|
  {
    if '=' in line && '#' in AfterEquals(line) then
      var rest := AfterEquals(line);
      Some(rest[IndexOfChar(rest, '#') + 1..])
    else None
  }

  /** The comment `set` keeps: the raw comment, stripped. */
  function CommentOf(line: string): (r: Option<string>)
    ensures r.Some? <==> RawComment(line).Some?
    ensures r.Some? ==> r.value == Strip(RawComment(line).value) && Strip(r.value) == r.value
  {
    match RawComment(line)
    case Some(raw) =>
      StripIdempotent(raw);
      Some(Strip(raw))
    case None => None
  }

  /** The text of a rewritten line: the key part, `= ` and the value, then `  # ` and the comment if any. */
  function Render(keyPart: string, toml: string, comment: Option<string>): (r: string)
    ensures |r| > |keyPart| && r[..|keyPart|] == keyPart && r[|keyPart|] == '='
  {
    var tail := if comment.Some? then " " + toml + "  # " + comment.value else " " + toml;
    keyPart + "=" + tail
  }

  /** Reading a rendered line back: its key part is the one rendered and the value follows `= `. */
  lemma RenderKey(keyPart: string, toml: string, comment: Option<string>)
    requires '=' !in keyPart
    ensures var r := Render(keyPart, toml, comment);
      '=' in r && KeyPart(r) == keyPart && StartsWith(AfterEquals(r), " " + toml)
  {
    var tail := if comment.Some? then " " + toml + "  # " + comment.value else " " + toml;
    SplitAtFirst(keyPart, '=', tail);
    assert tail[..|" " + toml|] == " " + toml;
  }

  /** The raw comment of a rendered line is the rendered comment behind one space, when the value holds no `#`. */
  lemma RenderComment(keyPart: string, toml: string, comment: Option<string>)
    requires '=' !in keyPart && '#' !in toml
    ensures RawComment(Render(keyPart, toml, comment)) == (if comment.Some? then Some(" " + comment.value) else None)
  {
    if comment.Some? {
      var before := " " + toml + "  ";
      var tail := before + "#" + (" " + comment.value);
      assert Render(keyPart, toml, comment) == keyPart + "=" + tail;
      SplitAtFirst(keyPart, '=', tail);
      SplitAtFirst(before, '#', " " + comment.value);
    } else {
      SplitAtFirst(keyPart, '=', " " + toml);
    }
  }

  /**
   * The new text of a matched line: the text before the first `=`, then `= ` and
   * the value, then `  # ` and the stripped comment when the text after the `=`
   * holds a `#`.
   */
  function RewriteLine(line: string, toml: string): (r: string)
    requires '=' in line
    ensures '=' in r
  {
    Render(KeyPart(line), toml, CommentOf(line))
  }

  /** The rewritten line keeps the text before the `=` and carries the new value right after `= `. */
  lemma RewriteKeepsKey(line: string, toml: string)
    requires '=' in line
    ensures '=' in RewriteLine(line, toml)
    ensures KeyPart(RewriteLine(line, toml)) == KeyPart(line)
    ensures StartsWith(AfterEquals(RewriteLine(line, toml)), " " + toml)
  {
    RenderKey(KeyPart(line), toml, CommentOf(line));
  }

  /**
   * Rewriting keeps the line's comment, so a later `set` of the same key keeps it
   * too, as long as the new value holds no `#`.
   */
  lemma RewriteKeepsComment(line: string, toml: string)
    requires '=' in line && '#' !in toml
    ensures CommentOf(RewriteLine(line, toml)) == CommentOf(line)
  {
    RenderComment(KeyPart(line), toml, CommentOf(line));
    if CommentOf(line).Some? {
      StripLeadingSpace(CommentOf(line).value);
    }
  }

  /** Splitting `a + [c] + b` at the first `c`, when `a` has none, gives back `a` and `b`. */
  lemma SplitAtFirst(a: string, c: char, b: string)
    requires c !in a
    ensures c in a + [c] + b
    ensures IndexOfChar(a + [c] + b, c) == |a|
    ensures (a + [c] + b)[..|a|] == a && (a + [c] + b)[|a| + 1..] == b
  {
    var s := a + [c] + b;
    assert s[..|a|] == a;
    IndexOfCharAt(s, c, |a|);
  }

  /** A position holding `c` with no `c` before it is `IndexOfChar`. */
  lemma IndexOfCharAt(s: string, c: char, i: nat)
    requires i < |s| && s[i] == c && c !in s[..i]
    ensures c in s && IndexOfChar(s, c) == i
  {
    assert s[i] in s;
    var k := IndexOfChar(s, c);
    assert s[..k + 1][k] == c;
    assert s[..i + 1][i] == c;
  }

  /** Stripping `" " + c` for an already stripped `c` gives `c`. */
  lemma StripLeadingSpace(c: string)
    requires c == Strip(c)
    ensures Strip(" " + c) == c
  {
    assert (" " + c)[1..] == c;
  }

  /**
   * `set(section, key, value)` on the file's text: the new text when a line was
   * rewritten, `None` when no key line was found (nothing is written).
   */
  function Rewritten(content: string, section: string, key: string, value: PyValue): (r: Option<string>)
    ensures r.None? <==> FirstCandidate(Split(content, '\n'), section, key).None?
  {
    var lines := Split(content, '\n');
    match FirstCandidate(lines, section, key)
    case None => None
    case Some(t) => Some(Join(lines[t := RewriteLine(lines[t], FormatValue(value))], '\n'))
  }

  /**
   * The rewrite loop of `set`: split the text into lines, track whether the scan
   * is inside `[section]`, rewrite the first key line found there, and join the
   * lines again. `ok` is the returned flag; `written` is the text written back.
   */
  method Set(content: string, section: string, key: string, value: PyValue) returns (ok: bool, written: Option<string>)
    ensures written == Rewritten(content, section, key, value)
    ensures ok <==> written.Some?
  {
    var lines := Split(content, '\n');
    ghost var original := lines;
    ghost var target := 0;
    var toml := FormatValue(value);
    var inSection := false;
    var updated := false;
    var i := 0;
    while i < |lines|
      invariant 0 <= i <= |lines|
      invariant !updated && lines == original
      invariant inSection == InSectionAt(lines, i, section)
      invariant FirstCandidate(lines, section, key) == FirstCandidateFrom(lines, section, key, i)
    {
      var stripped := Strip(lines[i]);
      if IsHeader(stripped) {
        HeaderStep(lines, i, section, key);
        inSection := stripped == "[" + section + "]";
        i := i + 1;
        continue;
      }
      OtherStep(lines, i, section, key);
      if inSection && KeyLineMatches(stripped, key) {
        if '=' in lines[i] {
          target := i;
          lines := lines[i := RewriteLine(lines[i], toml)];
          updated := true;
          break;
        }
      }
      i := i + 1;
    }
    if updated {
      RewrittenAt(content, section, key, value, target);
      ok := true;
      written := Some(Join(lines, '\n'));
    } else {
      ok := false;
      written := None;
    }
  }

  /** What `Rewritten` gives once the line to rewrite is known. */
  lemma RewrittenAt(content: string, section: string, key: string, value: PyValue, t: nat)
    requires FirstCandidate(Split(content, '\n'), section, key) == Some(t)
    ensures var lines := Split(content, '\n');
      Rewritten(content, section, key, value) == Some(Join(lines[t := RewriteLine(lines[t], FormatValue(value))], '\n'))
  {
  }

  /** A header line is never rewritten and decides whether the following lines are in the section. */
  lemma HeaderStep(lines: seq<string>, i: nat, section: string, key: string)
    requires i < |lines| && HeaderLine(lines[i])
    ensures InSectionAt(lines, i + 1, section) == (Strip(lines[i]) == "[" + section + "]")
    ensures !IsCandidate(lines, i, section, key)
  {
  }

  /** Any other line leaves the section state alone and is a candidate when it is a key line in the section. */
  lemma OtherStep(lines: seq<string>, i: nat, section: string, key: string)
    requires i < |lines| && !HeaderLine(lines[i])
    ensures InSectionAt(lines, i + 1, section) == InSectionAt(lines, i, section)
    ensures IsCandidate(lines, i, section, key) <==>
      InSectionAt(lines, i, section) && KeyLineMatches(Strip(lines[i]), key) && '=' in lines[i]
  {
  }

  /** A rendered line holds a line break only if one of its parts does. */
  lemma RenderNoNewline(keyPart: string, toml: string, comment: Option<string>)
    requires '\n' !in keyPart && '\n' !in toml && (comment.Some? ==> '\n' !in comment.value)
    ensures '\n' !in Render(keyPart, toml, comment)
  {
  }

  /** A slice holds no character its sequence does not. */
  lemma SliceWithout(s: string, i: nat, j: nat, c: char)
    requires i <= j <= |s| && c !in s
    ensures c !in s[i..j]
  {
    assert forall k :: 0 <= k < j - i ==> s[i..j][k] == s[i + k];
  }

  /** A rewritten line holds a line break only if the line or the value did. */
  lemma RewriteNoNewline(line: string, toml: string)
    requires '=' in line && '\n' !in line && '\n' !in toml
    ensures '\n' !in RewriteLine(line, toml)
  {
    var e := IndexOfChar(line, '=');
    SliceWithout(line, 0, e, '\n');
    assert KeyPart(line) == line[0..e];
    SliceWithout(line, e + 1, |line|, '\n');
    assert AfterEquals(line) == line[e + 1..|line|];
    var comment := CommentOf(line);
    if comment.Some? {
      var rest := AfterEquals(line);
      var h := IndexOfChar(rest, '#');
      SliceWithout(rest, h + 1, |rest|, '\n');
      assert RawComment(line).value == rest[h + 1..|rest|];
      StripChars(rest[h + 1..|rest|]);
    }
    RenderNoNewline(KeyPart(line), toml, comment);
  }

  /**
   * When a line is rewritten and the value holds no line break, the new text has
   * the same number of lines, the chosen line is rewritten and every other line is
   * unchanged.
   */
  lemma RewrittenLines(content: string, section: string, key: string, value: PyValue)
    requires '\n' !in FormatValue(value)
    requires Rewritten(content, section, key, value).Some?
    ensures var before := Split(content, '\n');
      var after := Split(Rewritten(content, section, key, value).value, '\n');
      var t := FirstCandidate(before, section, key).value;
      |after| == |before| && after[t] == RewriteLine(before[t], FormatValue(value)) &&
      forall j :: 0 <= j < |before| && j != t ==> after[j] == before[j]
  {
    var before := Split(content, '\n');
    var t := FirstCandidate(before, section, key).value;
    var toml := FormatValue(value);
    var newLine := RewriteLine(before[t], toml);
    RewriteNoNewline(before[t], toml);
    var parts := before[t := newLine];
    assert forall k :: 0 <= k < |parts| ==> '\n' !in parts[k];
    SplitJoin(parts, '\n');
  }
}
