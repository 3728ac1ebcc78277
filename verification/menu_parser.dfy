/**
  * The line parsers of the desktop-menu reader (`menu_parser.py`): the name of a menu directory,
  * the name, command and icon of a desktop entry, the file name of an entry, and the record kept
  * for an application. A file is given as its lines, each with its line break, as Python's
  * iteration over a text file yields them.
  */
module MenuParser {
  import opened Wrappers
  import opened Text

  /** The text after the first `c`: Python's `s.split(c, 1)[1]`, `None` where that raises. */
  function AfterFirst(s: string, c: char): (r: Option<string>)
    ensures r.Some? <==> c in s
    ensures r.Some? ==> EndsWith(s, r.value) && |r.value| < |s| && s[|s| - |r.value| - 1] == c
    ensures r.Some? ==> c !in s[..|s| - |r.value| - 1]
  {
    if |s| == 0 then None
    else if s[0] == c then
      assert s[|s| - |s[1..]|..] == s[1..];
      Some(s[1..])
    else
      match AfterFirst(s[1..], c)
      case None => None
      case Some(t) =>
        assert s[1..][|s[1..]| - |t|..] == s[|s| - |t|..];
        assert s[..|s| - |t| - 1] == [s[0]] + s[1..][..|s[1..]| - |t| - 1];
        Some(t)
  }

  /** The text after `p` when `c` does not occur in `p`. */
  lemma AfterFirstOf(p: string, c: char, v: string)
    requires c !in p
    ensures AfterFirst(p + [c] + v, c) == Some(v)
  {
    var s := p + [c] + v;
    var r := AfterFirst(s, c);
    assert s[|p|] == c;
    var k := |s| - |r.value| - 1;
    assert c !in s[..k] && s[k] == c;
    assert r.value == s[k + 1..];
  }

  /** The value of a line `key...` as the reader takes it: the stripped line after its first `=`. */
  function LineValue(line: string): Option<string> {
    AfterFirst(Strip(line), '=')
  }

  /** A key the reader looks for: non-blank at both ends, a single `=` at its end. */
  predicate EntryKey(key: string) {
    |key| > 0 && key[|key| - 1] == '=' && '=' !in key[..|key| - 1] && !IsSpace(key[0])
  }

  /**
    * A line `key value` read back: the value is everything after the key up to the trailing
    * blanks, `=` signs in it included.
    */
  lemma LineValueOf(key: string, v: string, tail: string)
    requires EntryKey(key)
    requires |v| == 0 || !IsSpace(v[|v| - 1])
    requires AllSpace(tail)
    ensures LineValue(key + v + tail) == Some(v)
  {
    var line := key + v + tail;
    var name := key[..|key| - 1];
    assert key == name + ['='];
    StripKeepsKey(line, key);
    var st := Strip(line);
    StripEnd(key + v, tail);
    assert st == key + v;
    assert key + v == name + ['='] + v;
    AfterFirstOf(name, '=', v);
  }

  /** Stripping a text whose blanks are only at its end removes just them. */
  lemma StripEnd(body: string, tail: string)
    requires |body| > 0 && !IsSpace(body[0]) && !IsSpace(body[|body| - 1])
    requires AllSpace(tail)
    ensures Strip(body + tail) == body
  {
    var s := body + tail;
    RunEndIs(s, 0, IsSpace, 0);
    RunStartIs(s, 0, |s|, IsSpace, |body|);
    assert s[..|body|] == body;
  }

  // ---------------------------------------------------------------------------------------
  // Directory and desktop files

  const NameKey := "Name="
  const ExecKey := "Exec="
  const IconKey := "Icon="

  /** `get_directory_name`: the value of the first line starting with `Name=`; none without such a line. */
  function DirectoryName(lines: seq<string>): (r: Option<string>)
    ensures r.None? <==> forall k :: 0 <= k < |lines| ==> !StartsWith(lines[k], NameKey)
    decreases |lines|
  {
    if |lines| == 0 then None
    else if StartsWith(lines[0], NameKey) then
      NameLineHasValue(lines[0]);
      LineValue(lines[0])
    else
      assert forall k :: 0 < k < |lines| ==> lines[k] == lines[1..][k - 1];
      DirectoryName(lines[1..])
  }

  /** Every `Name=` line has a value, so the first one decides. */
  lemma NameLineHasValue(line: string)
    requires StartsWith(line, NameKey)
    ensures LineValue(line).Some?
  {
    StripKeepsKey(line, NameKey);
    var st := Strip(line);
    assert st[4] == line[4] == '=';
  }

  /** The first `Name=` line gives the directory name, whatever follows. */
  lemma DirectoryNameFirst(before: seq<string>, line: string, after: seq<string>)
    requires forall k :: 0 <= k < |before| ==> !StartsWith(before[k], NameKey)
    requires StartsWith(line, NameKey)
    ensures DirectoryName(before + [line] + after) == LineValue(line)
    decreases |before|
  {
    NameLineHasValue(line);
    if |before| > 0 {
      assert (before + [line] + after)[1..] == before[1..] + [line] + after;
      DirectoryNameFirst(before[1..], line, after);
    } else {
      assert (before + [line] + after)[0] == line;
    }
  }

  /** The values of a desktop file; each is the one of the last line with its key. */
  datatype DesktopInfo = DesktopInfo(name: Option<string>, exec: Option<string>, icon: Option<string>)

  /** One line of `get_desktop_info`: a `Name=`, `Exec=` or `Icon=` line replaces that value. */
  function ReadLine(info: DesktopInfo, line: string): DesktopInfo {
    if StartsWith(line, NameKey) then info.(name := LineValue(line))
    else if StartsWith(line, ExecKey) then info.(exec := LineValue(line))
    else if StartsWith(line, IconKey) then info.(icon := LineValue(line))
    else info
  }

  /** `get_desktop_info`: the lines read in order. */
  function ReadDesktop(lines: seq<string>): DesktopInfo
    decreases |lines|
  {
    if |lines| == 0 then DesktopInfo(None, None, None)
    else ReadLine(ReadDesktop(lines[..|lines| - 1]), lines[|lines| - 1])
  }

  /** The last line with a key decides that value: lines after it without the key change nothing. */
  lemma {:induction false} LastNameWins(lines: seq<string>, k: nat)
    requires k < |lines| && StartsWith(lines[k], NameKey)
    requires forall j :: k < j < |lines| ==> !StartsWith(lines[j], NameKey)
    ensures ReadDesktop(lines).name == LineValue(lines[k])
    decreases |lines|
  {
    if k < |lines| - 1 {
      var init := lines[..|lines| - 1];
      assert init[k] == lines[k];
      LastNameWins(init, k);
    }
  }

  /** Without any line of a key, that value stays unknown. */
  lemma {:induction false} NoNameLine(lines: seq<string>)
    requires forall j :: 0 <= j < |lines| ==> !StartsWith(lines[j], NameKey)
    ensures ReadDesktop(lines).name.None?
    decreases |lines|
  {
    if |lines| > 0 {
      NoNameLine(lines[..|lines| - 1]);
    }
  }

  /** A localised key such as `Name[de]=` is not the key `Name=`. */
  lemma LocalisedNameIgnored(info: DesktopInfo, lang: string, v: string)
    ensures ReadLine(info, "Name[" + lang + "]=" + v) == info
  {
    var line := "Name[" + lang + "]=" + v;
    assert line[4] == '[' != NameKey[4];
    assert line[0] == 'N' != ExecKey[0] && line[0] != IconKey[0];
  }

  // ---------------------------------------------------------------------------------------
  // File names and records

  const ThinlincPrefix := "thinlinc-"

  /** `clean_filename`: one leading `thinlinc-` removed. */
  function CleanFilename(filename: string): (r: string)
    ensures StartsWith(filename, ThinlincPrefix) ==> ThinlincPrefix + r == filename
    ensures !StartsWith(filename, ThinlincPrefix) ==> r == filename
  {
    if StartsWith(filename, ThinlincPrefix) then
      assert filename == filename[..9] + filename[9..];
      filename[9..]
    else filename
  }

  /** Exactly one prefix is removed, even when the rest starts with it again. */
  lemma CleanFilenameOnce(rest: string)
    ensures CleanFilename(ThinlincPrefix + rest) == rest
  {
    assert (ThinlincPrefix + rest)[..9] == ThinlincPrefix;
  }

  /** The record of an application in the menu structure. */
  datatype App = App(name: string, exec: Option<string>, icon: Option<string>)

  /** Python's truth value of an optional text: present and not empty. */
  predicate Given(v: Option<string>) {
    v.Some? && |v.value| > 0
  }

  /** The record added for a desktop entry: only entries with a name, and only the values they give. */
  function AppInfo(info: DesktopInfo): (r: Option<App>)
    ensures r.Some? <==> Given(info.name)
    ensures r.Some? ==> r.value.name == info.name.value
    ensures r.Some? ==> (r.value.exec.Some? <==> Given(info.exec)) && (r.value.icon.Some? <==> Given(info.icon))
    ensures r.Some? && r.value.exec.Some? ==> r.value.exec == info.exec && |r.value.exec.value| > 0
    ensures r.Some? && r.value.icon.Some? ==> r.value.icon == info.icon && |r.value.icon.value| > 0
  {
    if Given(info.name) then
      Some(App(info.name.value,
               if Given(info.exec) then info.exec else None,
               if Given(info.icon) then info.icon else None))
    else None
  }
}
