/**
 * `RichFormatter._get_file_icon`: the icon of a file, looked up by the
 * lower-cased text after the last `.` of its name.
 */
module FileIcons {
  import opened PyBuiltins

  const DefaultIcon: string := "\U{1F4C4}"

  /** The extension table of `_get_file_icon`. */
  const Icons: map<string, string> := map[
    "py" := "\U{1F40D}",
    "js" := "\U{1F4DC}",
    "ts" := "\U{1F4D8}",
    "jsx" := "\U{269B}\U{FE0F}",
    "tsx" := "\U{269B}\U{FE0F}",
    "json" := "\U{1F4CB}",
    "md" := "\U{1F4DD}",
    "css" := "\U{1F3A8}",
    "html" := "\U{1F310}",
    "yml" := "\U{2699}\U{FE0F}",
    "yaml" := "\U{2699}\U{FE0F}",
    "toml" := "\U{2699}\U{FE0F}",
    "txt" := "\U{1F4C4}",
    "sh" := "\U{1F527}",
    "sql" := "\U{1F5C3}\U{FE0F}"
  ]

  /** `c.lower()` for ASCII letters. */
  function LowerChar(c: char): (l: char)
    ensures 'A' <= c <= 'Z' ==> l as int == c as int + 32
    ensures !('A' <= c <= 'Z') ==> l == c
  {
    if 'A' <= c <= 'Z' then (c as int + 32) as char else c
  }

  /** `s.lower()` for ASCII letters. */
  function Lower(s: string): (r: string)
    ensures |r| == |s|
    ensures forall k :: 0 <= k < |s| ==> r[k] == LowerChar(s[k])
  {
    seq(|s|, k requires 0 <= k < |s| => LowerChar(s[k]))
  }

  /** The text after the last `.`: `filename.split(".")[-1]`. */
  function LastPart(filename: string): (ext: string)
    ensures '.' !in ext
  {
    var parts := Split(filename, '.');
    parts[|parts| - 1]
  }

  /** `filename.split(".")[-1].lower() if "." in filename else ""` */
  function Extension(filename: string): (ext: string)
    ensures '.' !in filename ==> ext == ""
    ensures forall k :: 0 <= k < |ext| ==> !('A' <= ext[k] <= 'Z')
  {
    if '.' in filename then Lower(LastPart(filename)) else ""
  }

  /** `icons.get(ext, "📄")` */
  function IconOf(ext: string): (icon: string)
    ensures ext in Icons ==> icon == Icons[ext]
    ensures ext !in Icons ==> icon == DefaultIcon
  {
    if ext in Icons then Icons[ext] else DefaultIcon
  }

  /** `_get_file_icon` */
  function FileIcon(filename: string): (icon: string)
    ensures '.' !in filename ==> icon == DefaultIcon
    ensures icon == DefaultIcon || icon in Icons.Values
  {
    IconOf(Extension(filename))
  }

  /** The extension is what follows the last dot: the name is a stem, a dot and a dot-free suffix. */
  lemma ExtensionIsSuffix(filename: string)
    requires '.' in filename
    ensures exists stem :: filename == stem + "." + LastPart(filename)
  {
    var parts := Split(filename, '.');
    JoinSplit(filename, '.');
    assert |parts| != 1;
    var init := parts[..|parts| - 1];
    JoinConcat(init, [parts[|parts| - 1]], '.');
    assert init + [parts[|parts| - 1]] == parts;
    assert filename == Join(init, '.') + "." + LastPart(filename);
  }

  /** A name `stem.ext` with a dot-free `ext` gets the icon of `ext`, lower-cased. */
  lemma IconOfSuffix(stem: string, ext: string)
    requires '.' !in ext
    ensures FileIcon(stem + "." + ext) == IconOf(Lower(ext))
  {
    var name := stem + "." + ext;
    assert name == stem + ['.'] + ext;
    assert '.' in name by {
      assert name[|stem|] == '.';
    }
    assert Split(name, '.') == Split(stem, '.') + [ext] by {
      SplitConcat(stem, '.', ext);
      SplitAbsent(ext, '.');
    }
  }

  /** The lookup ignores the case of the extension. */
  lemma IconIgnoresCase(stem: string, e1: string, e2: string)
    requires '.' !in e1 && '.' !in e2 && Lower(e1) == Lower(e2)
    ensures FileIcon(stem + "." + e1) == FileIcon(stem + "." + e2)
  {
    IconOfSuffix(stem, e1);
    IconOfSuffix(stem, e2);
  }

  /** A Python source file gets the snake, whatever the case of its extension. */
  lemma PythonIcon(stem: string, ext: string)
    requires Lower(ext) == "py"
    ensures FileIcon(stem + "." + ext) == "\U{1F40D}"
  {
    assert '.' !in ext by {
      forall k | 0 <= k < |ext| ensures ext[k] != '.' {
        assert LowerChar(ext[k]) == "py"[k];
      }
    }
    IconOfSuffix(stem, ext);
  }
}
