/** The text-editor tool: the schema chosen by model name, the check that
    keeps every path inside the base directory, the text transformations
    behind `view`, `str_replace` and `insert`, the choice of the backup that
    `undo_edit` restores, and the tool object over a snapshot of the file
    system. */
module TextEditor {
  import opened Values
  import opened Text

  // ---------------------------------------------------------------------
  // Schema by model name

  datatype EditorSchema = EditorSchema(toolType: string, name: string)

  const EditToolName := "str_replace_based_edit_tool"

  /** `get_text_edit_schema`: the tool version follows the model family,
      recognised by name prefix; any other model is a ValueError. */
  function TextEditSchema(model: string): (r: Result<EditorSchema>)
    ensures r.Ok? <==> (StartsWith(model, "claude-opus-4") || StartsWith(model, "claude-sonnet-4")
                        || StartsWith(model, "claude-3-7-sonnet") || StartsWith(model, "claude-3-5-sonnet"))
    ensures r.Ok? ==> r.value.name == EditToolName
    ensures r.Err? ==> r.error == ValueError
  {
    if StartsWith(model, "claude-opus-4") || StartsWith(model, "claude-sonnet-4") then
      Ok(EditorSchema("text_editor_20250429", EditToolName))
    else if StartsWith(model, "claude-3-7-sonnet") then
      Ok(EditorSchema("text_editor_20250124", EditToolName))
    else if StartsWith(model, "claude-3-5-sonnet") then
      Ok(EditorSchema("text_editor_20241022", EditToolName))
    else
      Err(ValueError)
  }

  /** The four families are told apart by their prefixes, so each gets its
      own version. */
  lemma SchemaVersions(model: string)
    ensures StartsWith(model, "claude-opus-4") || StartsWith(model, "claude-sonnet-4") ==>
      TextEditSchema(model) == Ok(EditorSchema("text_editor_20250429", EditToolName))
    ensures StartsWith(model, "claude-3-7-sonnet") ==>
      TextEditSchema(model) == Ok(EditorSchema("text_editor_20250124", EditToolName))
    ensures StartsWith(model, "claude-3-5-sonnet") ==>
      TextEditSchema(model) == Ok(EditorSchema("text_editor_20241022", EditToolName))
  {
    if StartsWith(model, "claude-3-7-sonnet") || StartsWith(model, "claude-3-5-sonnet") {
      assert model[7] == '3' by {
        if StartsWith(model, "claude-3-7-sonnet") {
          assert model[..17][7] == "claude-3-7-sonnet"[7];
        } else {
          assert model[..17][7] == "claude-3-5-sonnet"[7];
        }
      }
      assert !StartsWith(model, "claude-opus-4");
      assert !StartsWith(model, "claude-sonnet-4");
      if StartsWith(model, "claude-3-5-sonnet") {
        assert model[..17][9] == '5';
        assert !StartsWith(model, "claude-3-7-sonnet");
      }
    }
  }

  // ---------------------------------------------------------------------
  // POSIX paths

  /** `os.path.join(a, b)`: an absolute `b` replaces `a`. */
  function PathJoin(a: string, b: string): string {
    if StartsWith(b, "/") then b
    else if a == "" || a[|a| - 1] == '/' then a + b
    else a + "/" + b
  }

  /** One step of `os.path.normpath` over the components: empty and `.`
      parts vanish, and `..` removes the previous part unless nothing can be
      removed; a rooted path drops a `..` at the root. */
  function NormStep(acc: seq<string>, comp: string, rooted: bool): seq<string> {
    if comp == "" || comp == "." then acc
    else if comp != ".." || (!rooted && acc == []) || (acc != [] && acc[|acc| - 1] == "..") then acc + [comp]
    else if acc != [] then acc[..|acc| - 1]
    else acc
  }

  function NormFrom(acc: seq<string>, comps: seq<string>, rooted: bool): seq<string>
    decreases |comps|
  {
    if comps == [] then acc else NormFrom(NormStep(acc, comps[0], rooted), comps[1..], rooted)
  }

  /** `os.path.normpath`: one or two leading slashes are kept (three or more
      become one), and the empty result is `.`. */
  function NormPath(path: string): (r: string)
    ensures r != ""
  {
    if path == "" then "."
    else
      var slashes := if StartsWith(path, "//") && !StartsWith(path, "///") then "//"
                     else if StartsWith(path, "/") then "/" else "";
      var p := slashes + Join(NormFrom([], SplitOn(path, '/'), slashes != ""), "/");
      if p == "" then "." else p
  }

  /** Normalising a rooted path never leaves a `..` part. */
  lemma {:induction false} NormRootedNoParent(acc: seq<string>, comps: seq<string>)
    requires ".." !in acc
    ensures ".." !in NormFrom(acc, comps, true)
    decreases |comps|
  {
    if comps != [] {
      var next := NormStep(acc, comps[0], true);
      assert ".." !in next by {
        if acc != [] && next == acc[..|acc| - 1] {
          forall x | x in next ensures x != ".." { assert x in acc; }
        }
      }
      NormRootedNoParent(next, comps[1..]);
    }
  }

  /** `os.path.basename`: the text after the last slash. */
  function Basename(path: string): (r: string)
    ensures '/' !in r
  {
    var parts := SplitOn(path, '/');
    parts[|parts| - 1]
  }

  /** The non-empty components of a path. */
  function Parts(path: string): seq<string> {
    NonEmpty(SplitOn(path, '/'))
  }

  function NonEmpty(parts: seq<string>): (r: seq<string>)
    ensures |r| <= |parts|
    decreases |parts|
  {
    if parts == [] then []
    else (if parts[0] == "" then [] else [parts[0]]) + NonEmpty(parts[1..])
  }

  lemma NonEmptyCons(x: string, rest: seq<string>)
    ensures NonEmpty([x] + rest) == (if x == "" then [] else [x]) + NonEmpty(rest)
  {
    assert ([x] + rest)[1..] == rest;
  }

  lemma {:induction false} NonEmptyConcat(a: seq<string>, b: seq<string>)
    ensures NonEmpty(a + b) == NonEmpty(a) + NonEmpty(b)
    decreases |a|
  {
    if a == [] {
      assert a + b == b;
    } else {
      var x, tail := a[0], a[1..];
      assert a == [x] + tail;
      assert a + b == [x] + (tail + b);
      NonEmptyConcat(tail, b);
      NonEmptyCons(x, tail + b);
      NonEmptyCons(x, tail);
    }
  }

  lemma PartsAtSlash(x: string, y: string)
    ensures Parts(x + "/" + y) == Parts(x) + Parts(y)
  {
    SplitOnConcat(x, y, '/');
    NonEmptyConcat(SplitOn(x, '/'), SplitOn(y, '/'));
  }

  /** `path` names `base` itself or something inside it: both are rooted
      alike and the components of `base` begin those of `path`. */
  predicate Within(base: string, path: string) {
    && (StartsWith(base, "/") <==> StartsWith(path, "/"))
    && |Parts(base)| <= |Parts(path)|
    && Parts(path)[..|Parts(base)|] == Parts(base)
  }

  /** `_validate_path` as written: the normalised path is accepted when it
      starts with the base directory as a string. */
  function ValidatePathAsWritten(base: string, filePath: string): (r: Result<string>)
    ensures r.Ok? ==> r.value == NormPath(PathJoin(base, filePath)) && StartsWith(r.value, base)
    ensures r.Err? ==> r.error == ValueError
  {
    var abs := NormPath(PathJoin(base, filePath));
    if StartsWith(abs, base) then Ok(abs) else Err(ValueError)
  }


  /** The components of `/c/b/a`, split left to right. */
  lemma SplitThree(a: string, b: string, c: string)
    requires '/' !in a && '/' !in b && '/' !in c
    ensures SplitOn("/" + c + "/" + b + "/" + a, '/') == ["", c, b, a]
  {
    SplitNoSep("", '/');
    SplitNoSep(a, '/');
    SplitNoSep(b, '/');
    SplitNoSep(c, '/');
    var root := "/" + c;
    assert root == "" + "/" + c;
    SplitOnConcat("", c, '/');
    var mid := root + "/" + b;
    SplitOnConcat(root, b, '/');
    SplitOnConcat(mid, a, '/');
  }

  /** A plain component: not empty, not `.` or `..`, without a slash. */
  predicate PlainName(x: string) {
    x != "" && x != "." && x != ".." && '/' !in x
  }

  lemma NormFromSibling(c: string, a: string)
    requires PlainName(c) && PlainName(a)
    ensures NormFrom([], ["", c, "..", a], true) == [a]
  {
    var comps := ["", c, "..", a];
    assert NormFrom([], comps, true) == NormFrom([], [c, "..", a], true) by {
      assert comps[1..] == [c, "..", a];
      assert NormStep([], "", true) == [];
    }
    assert NormFrom([], [c, "..", a], true) == NormFrom([c], ["..", a], true) by {
      assert [c, "..", a][1..] == ["..", a];
      assert NormStep([], c, true) == [c];
    }
    assert NormFrom([c], ["..", a], true) == NormFrom([], [a], true) by {
      assert ["..", a][1..] == [a];
      assert NormStep([c], "..", true) == [];
    }
    assert NormFrom([], [a], true) == [a] by {
      assert [a][1..] == [];
      assert NormStep([], a, true) == [a];
    }
  }

  /** `normpath` of a path with exactly one leading slash. */
  lemma NormPathRooted(path: string)
    requires StartsWith(path, "/") && !StartsWith(path, "//")
    ensures NormPath(path) == "/" + Join(NormFrom([], SplitOn(path, '/'), true), "/")
  {
  }

  /** `/c/../a` normalises to `/a`. */
  lemma NormSiblingOf(c: string, a: string)
    requires PlainName(c) && PlainName(a)
    ensures NormPath("/" + c + "/" + ".." + "/" + a) == "/" + a
  {
    var path := "/" + c + "/" + ".." + "/" + a;
    assert StartsWith(path, "/") && !StartsWith(path, "//") by {
      assert path[..1] == "/";
      assert path[1] == c[0];
      assert c[0] in c;
    }
    NormPathRooted(path);
    SplitThree(a, "..", c);
    NormFromSibling(c, a);
    assert Join([a], "/") == a;
  }

  lemma SpellSibling()
    ensures "/" + "app" + "/" + ".." + "/" + "app2" == "/app/../app2"
  {
  }

  lemma NormSibling()
    ensures NormPath("/app/../app2") == "/app2"
  {
    NormSiblingOf("app", "app2");
    SpellSibling();
  }

  lemma NonEmptyPair(x: string)
    requires x != ""
    ensures NonEmpty(["", x]) == [x]
  {
    assert ["", x][1..] == [x];
    assert [x][1..] == [];
    assert NonEmpty([x]) == [x] + NonEmpty([]);
  }

  lemma PartsOfNames()
    ensures Parts("/app") == ["app"]
    ensures Parts("/app2") == ["app2"]
  {
    var a, c := "app2", "app";
    SplitNoSep(a, '/');
    SplitNoSep(c, '/');
    SplitNoSep("", '/');
    SplitCons("", c, '/');
    assert "" + "/" + c == "/app";
    SplitCons("", a, '/');
    assert "" + "/" + a == "/app2";
    NonEmptyPair(c);
    NonEmptyPair(a);
  }

  /** The string-prefix test lets through a sibling directory whose name
      extends the base directory's name. */
  lemma AsWrittenAcceptsSibling()
    ensures ValidatePathAsWritten("/app", "../app2") == Ok("/app2")
    ensures !Within("/app", "/app2")
  {
    JoinSibling();
    NormSibling();
    SiblingNotWithin();
    var base, abs := "/app", "/app2";
    assert StartsWith(abs, base) by { assert abs[..4] == base; }
  }

  lemma JoinSibling()
    ensures PathJoin("/app", "../app2") == "/app/../app2"
  {
    var base, p := "/app", "../app2";
    assert !StartsWith(p, "/") by { assert p[0] == '.'; }
    assert base != "" && base[|base| - 1] == 'p';
    assert base + "/" + p == "/app/../app2";
  }

  lemma SiblingNotWithin()
    ensures !Within("/app", "/app2")
  {
    var base, abs := "/app", "/app2";
    PartsOfNames();
    assert Parts(abs)[..|Parts(base)|] != Parts(base) by {
      assert Parts(abs)[..1] == ["app2"];
      assert |"app2"| != |"app"|;
    }
  }

  /** The containment test the base directory check is meant to be: the
      normalised path is the base itself or lies below it, separated by a
      slash. */
  function DirPrefix(base: string): string {
    if base != "" && base[|base| - 1] == '/' then base else base + "/"
  }

  function ValidatePath(base: string, filePath: string): (r: Result<string>)
    ensures r.Ok? ==> r.value == NormPath(PathJoin(base, filePath))
    ensures r.Err? ==> r.error == ValueError
  {
    var abs := NormPath(PathJoin(base, filePath));
    if abs == base || StartsWith(abs, DirPrefix(base)) then Ok(abs) else Err(ValueError)
  }

  /** Every path the corrected check accepts lies within the base directory,
      and the check is only ever stricter than the one as written. */
  lemma ValidatePathContained(base: string, filePath: string)
    requires base != ""
    ensures ValidatePath(base, filePath).Ok? ==> Within(base, ValidatePath(base, filePath).value)
    ensures ValidatePath(base, filePath).Ok? ==> ValidatePathAsWritten(base, filePath) == ValidatePath(base, filePath)
  {
    var abs := NormPath(PathJoin(base, filePath));
    if abs == base {
      assert abs[..|base|] == base;
    } else if StartsWith(abs, DirPrefix(base)) {
      PrefixWithin(base, abs);
    }
  }

  /** A path that starts with the base directory and a slash lies within it. */
  lemma PrefixWithin(base: string, abs: string)
    requires base != "" && StartsWith(abs, DirPrefix(base))
    ensures Within(base, abs) && StartsWith(abs, base)
  {
    var pre := DirPrefix(base);
    var rest := abs[|pre|..];
    assert abs == pre + rest;
    assert abs[0] == base[0];
    if base[|base| - 1] == '/' {
      var stem := base[..|base| - 1];
      assert base == stem + "/" + "";
      assert abs == stem + "/" + rest;
      PartsAtSlash(stem, "");
      PartsAtSlash(stem, rest);
      assert Parts("") == [] by { assert SplitOn("", '/') == [""]; }
      assert Parts(abs) == Parts(base) + Parts(rest);
    } else {
      assert abs == base + "/" + rest;
      PartsAtSlash(base, rest);
    }
    assert Parts(abs)[..|Parts(base)|] == Parts(base);
    assert abs[..|base|] == base;
  }

  /** The corrected check refuses the sibling directory. */
  lemma ValidatePathRejectsSibling()
    ensures ValidatePath("/app", "../app2") == Err(ValueError)
  {
    AsWrittenAcceptsSibling();
    ValidatePathContained("/app", "../app2");
  }

  // ---------------------------------------------------------------------
  // view

  /** `f"{i}: {line}"`. */
  function NumberedLine(n: int, line: string): string {
    IntToString(n) + ": " + line
  }

  /** The lines numbered consecutively from `first`. */
  function Numbered(lines: seq<string>, first: int): (r: seq<string>)
    ensures |r| == |lines|
  {
    seq(|lines|, i requires 0 <= i < |lines| => NumberedLine(first + i, lines[i]))
  }

  /** The loop that numbers the selected lines and joins them with newlines. */
  method RenderNumbered(lines: seq<string>, first: int) returns (out: string)
    ensures out == Join(Numbered(lines, first), "\n")
  {
    var result: seq<string> := [];
    var i := 0;
    while i < |lines|
      invariant 0 <= i <= |lines|
      invariant result == Numbered(lines[..i], first)
    {
      result := result + [NumberedLine(first + i, lines[i])];
      i := i + 1;
    }
    assert lines[..i] == lines;
    out := Join(result, "\n");
  }

  lemma NumberedLineNoNewline(n: int, line: string)
    requires '\n' !in line
    ensures '\n' !in NumberedLine(n, line)
  {
    var digits := NatToString(if n < 0 then -n else n);
    assert '\n' !in digits by {
      forall k | 0 <= k < |digits| ensures digits[k] != '\n' { }
    }
  }

  /** The rendered text has exactly one line per selected line, each
      reading `"n: line"`, as long as no selected line holds a newline (true
      of the parts of a split on newlines). */
  lemma RenderedLines(lines: seq<string>, first: int)
    requires |lines| >= 1
    requires forall i :: 0 <= i < |lines| ==> '\n' !in lines[i]
    ensures SplitOn(Join(Numbered(lines, first), "\n"), '\n') == Numbered(lines, first)
  {
    var numbered := Numbered(lines, first);
    forall i | 0 <= i < |numbered| ensures '\n' !in numbered[i] {
      NumberedLineNoNewline(first + i, lines[i]);
    }
    SplitJoin(numbered, '\n');
  }

  /** The lines `view` shows and the number of the first: all lines from 1
      without a range; with `[start, end]`, `lines[start - 1:end]` from
      `start`, where `end == -1` means the last line. A range that is not a
      pair cannot be unpacked (ValueError). */
  function Selection(content: string, viewRange: Option<seq<int>>): (r: Result<(seq<string>, int)>)
    ensures r.Err? <==> viewRange.Some? && |viewRange.value| != 0 && |viewRange.value| != 2
    ensures r.Err? ==> r.error == ValueError
    ensures viewRange.None? ==> r == Ok((SplitOn(content, '\n'), 1))
  {
    var lines := SplitOn(content, '\n');
    if viewRange.None? || viewRange.value == [] then Ok((lines, 1))
    else if |viewRange.value| != 2 then Err(ValueError)
    else
      var start := viewRange.value[0];
      var end := if viewRange.value[1] == -1 then |lines| else viewRange.value[1];
      Ok((PySlice(lines, start - 1, end), start))
  }

  /** Within the file, a range `[start, end]` shows lines `start` through
      `end` (or through the last line for `end == -1`), each under its own
      line number. */
  lemma SelectionInRange(content: string, start: int, end: int)
    requires var lines := SplitOn(content, '\n');
      1 <= start && (end == -1 || start <= end <= |lines|) && start <= |lines|
    ensures var lines := SplitOn(content, '\n');
      var last := if end == -1 then |lines| else end;
      var r := Selection(content, Some([start, end]));
      && r == Ok((lines[start - 1..last], start))
      && |r.value.0| == last - start + 1
      && forall j :: 0 <= j < |r.value.0| ==>
           r.value.0[j] == lines[start - 1 + j] && Numbered(r.value.0, start)[j] == NumberedLine(start + j, lines[start - 1 + j])
  {
    var lines := SplitOn(content, '\n');
    var last := if end == -1 then |lines| else end;
    assert SliceBound(start - 1, |lines|) == start - 1;
    assert SliceBound(last, |lines|) == last;
    var shown := lines[start - 1..last];
    assert PySlice(lines, start - 1, last) == shown;
    assert Selection(content, Some([start, end])) == Ok((shown, start));
    forall j | 0 <= j < |shown| ensures Numbered(shown, start)[j] == NumberedLine(start + j, lines[start - 1 + j]) {
      assert shown[j] == lines[start - 1 + j];
    }
  }

  /** `view` on file content: the selection, numbered and joined. */
  method ViewText(content: string, viewRange: Option<seq<int>>) returns (r: Result<string>)
    ensures Selection(content, viewRange).Err? ==> r == Err(ValueError)
    ensures Selection(content, viewRange).Ok? ==>
      r == Ok(Join(Numbered(Selection(content, viewRange).value.0, Selection(content, viewRange).value.1), "\n"))
  {
    var sel := Selection(content, viewRange);
    if sel.Err? {
      return Err(ValueError);
    }
    var text := RenderNumbered(sel.value.0, sel.value.1);
    r := Ok(text);
  }

  // ---------------------------------------------------------------------
  // str_replace

  /** The unique-match rule of `str_replace`: no match and several matches
      are both ValueErrors; exactly one match rewrites it. */
  function ReplaceOnce(content: string, oldStr: string, newStr: string): (r: Result<string>)
    ensures r.Ok? <==> Count(content, oldStr) == 1
    ensures r.Err? ==> r.error == ValueError
  {
    var matches := Count(content, oldStr);
    if matches == 0 then Err(ValueError)
    else if matches > 1 then Err(ValueError)
    else Ok(Replace(content, oldStr, newStr))
  }

  /** A successful replacement splices `newStr` over the single occurrence of
      `oldStr` and keeps the rest of the content. */
  lemma ReplaceOnceSplices(content: string, oldStr: string, newStr: string)
    requires ReplaceOnce(content, oldStr, newStr).Ok?
    ensures exists i :: (OccursAt(content, oldStr, i)
      && ReplaceOnce(content, oldStr, newStr).value == content[..i] + newStr + content[i + |oldStr|..])
  {
    if oldStr == [] {
      assert content == [];
      assert OccursAt(content, oldStr, 0);
      assert ReplaceEmpty(content, newStr) == newStr;
      assert content[..0] + newStr + content[0..] == newStr;
    } else {
      ReplaceUnique(content, oldStr, newStr);
    }
  }

  // ---------------------------------------------------------------------
  // insert

  predicate EndsWithNewline(s: string) {
    s != [] && s[|s| - 1] == '\n'
  }

  /** `f.readlines()`: the lines of the text, each keeping its newline. */
  function ReadLines(s: string): (r: seq<string>)
    ensures forall i :: 0 <= i < |r| ==> r[i] != ""
    ensures forall i :: 0 <= i < |r| - 1 ==> EndsWithNewline(r[i])
    ensures r == [] <==> s == []
    ensures r != [] ==> (EndsWithNewline(r[|r| - 1]) <==> EndsWithNewline(s))
    decreases |s|
  {
    if s == [] then []
    else
      var rest := ReadLines(s[1..]);
      if s[0] == '\n' then ["\n"] + rest
      else if rest == [] then [[s[0]]]
      else [[s[0]] + rest[0]] + rest[1..]
  }

  /** `f.writelines(lines)`. */
  function Concat(lines: seq<string>): string
    decreases |lines|
  {
    if lines == [] then "" else lines[0] + Concat(lines[1..])
  }

  lemma {:induction false} ConcatAppend(a: seq<string>, b: seq<string>)
    ensures Concat(a + b) == Concat(a) + Concat(b)
    decreases |a|
  {
    if a == [] {
      assert a + b == b;
    } else {
      assert (a + b)[0] == a[0];
      assert (a + b)[1..] == a[1..] + b;
      ConcatAppend(a[1..], b);
      assert Concat(a + b) == a[0] + Concat(a[1..] + b);
    }
  }

  /** Writing back the lines read gives the original text. */
  lemma {:induction false} ConcatReadLines(s: string)
    ensures Concat(ReadLines(s)) == s
    decreases |s|
  {
    if s != [] {
      var rest := ReadLines(s[1..]);
      ConcatReadLines(s[1..]);
      if s[0] == '\n' {
        assert ReadLines(s) == ["\n"] + rest;
        assert (["\n"] + rest)[1..] == rest;
      } else if rest == [] {
        assert s[1..] == [];
      } else {
        var lines := ReadLines(s);
        assert lines == [[s[0]] + rest[0]] + rest[1..];
        assert lines[1..] == rest[1..];
        assert Concat(rest) == rest[0] + Concat(rest[1..]);
      }
      assert s == [s[0]] + s[1..];
    }
  }

  /** The line `insert` adds: a newline is put in front of the text whenever
      the file's last line lacks one, wherever the text goes. */
  function InsertedLine(lines: seq<string>, text: string): string {
    (if lines != [] && !EndsWithNewline(lines[|lines| - 1]) then "\n" + text else text) + "\n"
  }

  /** The line-list update of `insert`: at the start for 0, after line `n`
      for `1 <= n <= len(lines)`, an IndexError otherwise. */
  function InsertLines(lines: seq<string>, n: int, text: string): (r: Result<seq<string>>)
    ensures r.Err? <==> !(0 <= n <= |lines|)
    ensures r.Err? ==> r.error == IndexError
    ensures r.Ok? ==> && |r.value| == |lines| + 1
                      && r.value[..n] == lines[..n]
                      && r.value[n] == InsertedLine(lines, text)
                      && r.value[n + 1..] == lines[n..]
  {
    var line := InsertedLine(lines, text);
    if n == 0 then Ok([line] + lines)
    else if 0 < n <= |lines| then Ok(lines[..n] + [line] + lines[n..])
    else Err(IndexError)
  }

  lemma ConcatSplice(lines: seq<string>, n: nat, line: string)
    requires n <= |lines|
    ensures Concat(lines[..n] + [line] + lines[n..]) == Concat(lines[..n]) + line + Concat(lines[n..])
  {
    ConcatAppend(lines[..n] + [line], lines[n..]);
    ConcatAppend(lines[..n], [line]);
    assert Concat([line]) == line + Concat([]);
  }

  /** On any line list: the inserted line lands between the first `n` lines
      and the rest. */
  lemma InsertSplice(lines: seq<string>, n: nat, text: string)
    requires n <= |lines|
    ensures Concat(lines[..n]) + Concat(lines[n..]) == Concat(lines)
    ensures Concat(InsertLines(lines, n, text).value) == Concat(lines[..n]) + InsertedLine(lines, text) + Concat(lines[n..])
  {
    SplitHalves(lines, n);
    InsertLinesSplice(lines, n, text);
    ConcatSplice(lines, n, InsertedLine(lines, text));
  }

  lemma SplitHalves(lines: seq<string>, n: nat)
    requires n <= |lines|
    ensures Concat(lines[..n]) + Concat(lines[n..]) == Concat(lines)
  {
    assert lines == lines[..n] + lines[n..];
    ConcatAppend(lines[..n], lines[n..]);
  }

  lemma InsertLinesSplice(lines: seq<string>, n: nat, text: string)
    requires n <= |lines|
    ensures InsertLines(lines, n, text) == Ok(lines[..n] + [InsertedLine(lines, text)] + lines[n..])
  {
    var line := InsertedLine(lines, text);
    if n == 0 {
      assert lines[..0] + [line] + lines[0..] == [line] + lines;
    }
  }

  /** On the file's text: the new text is the first `n` lines, the inserted
      line, then the remaining lines, and nothing of the old text is lost. */
  lemma InsertIntoText(content: string, n: int, text: string)
    requires 0 <= n <= |ReadLines(content)|
    ensures var lines := ReadLines(content);
      && Concat(lines[..n]) + Concat(lines[n..]) == content
      && Concat(InsertLines(lines, n, text).value) == Concat(lines[..n]) + InsertedLine(lines, text) + Concat(lines[n..])
  {
    InsertSplice(ReadLines(content), n, text);
    ConcatReadLines(content);
  }

  /** The extra newline is added exactly when the file is non-empty and does
      not end with a newline, even for an insertion at the start. */
  lemma InsertedLinePrefix(content: string, text: string)
    ensures InsertedLine(ReadLines(content), text) ==
      (if content != [] && !EndsWithNewline(content) then "\n" + text + "\n" else text + "\n")
  {
  }

  // ---------------------------------------------------------------------
  // Backups

  /** A backup of `fileName` is named `fileName + "." + <mtime>`. */
  predicate IsBackupOf(name: string, fileName: string) {
    StartsWith(name, fileName + ".")
  }

  function BackupName(path: string, mtime: nat): string {
    Basename(path) + "." + NatToString(mtime)
  }

  lemma BackupNameIsBackup(path: string, mtime: nat)
    ensures IsBackupOf(BackupName(path, mtime), Basename(path))
  {
    assert BackupName(path, mtime)[..|Basename(path) + "."|] == Basename(path) + ".";
  }

  /** A backup name is a single path component. */
  lemma BackupNamePlain(path: string, mtime: nat)
    ensures BackupName(path, mtime) != "" && '/' !in BackupName(path, mtime)
  {
    var digits := NatToString(mtime);
    assert '/' !in digits by {
      forall k | 0 <= k < |digits| ensures digits[k] != '/' { }
    }
  }

  /** The greatest name, as `sorted(..., reverse=True)[0]`. */
  predicate IsLatest(listing: set<string>, fileName: string, b: string) {
    b in listing && IsBackupOf(b, fileName)
    && forall f :: f in listing && IsBackupOf(f, fileName) ==> LexLe(f, b)
  }

  /** The backup `undo_edit` restores: the lexicographically greatest name in
      the backup directory that starts with the file's name and a dot, or
      none. */
  method LatestBackup(listing: set<string>, fileName: string) returns (r: Option<string>)
    ensures r.None? <==> forall f :: f in listing ==> !IsBackupOf(f, fileName)
    ensures r.Some? ==> IsLatest(listing, fileName, r.value)
  {
    var rest := listing;
    r := None;
    while rest != {}
      invariant rest <= listing
      invariant r.None? ==> forall f :: f in listing - rest ==> !IsBackupOf(f, fileName)
      invariant r.Some? ==> IsLatest(listing - rest, fileName, r.value)
      decreases |rest|
    {
      var f :| f in rest;
      ghost var seen := listing - rest;
      assert listing - (rest - {f}) == seen + {f};
      if IsBackupOf(f, fileName) {
        if r.None? {
          LexLeReflexive(f);
          r := Some(f);
        } else if !LexLe(f, r.value) {
          var prev := r.value;
          LexLeTotal(f, prev);
          forall g | g in seen + {f} && IsBackupOf(g, fileName) ensures LexLe(g, f) {
            if g == f {
              LexLeReflexive(f);
            } else {
              assert LexLe(g, prev);
              LexLeTrans(g, prev, f);
            }
          }
          r := Some(f);
        }
      }
      rest := rest - {f};
    }
  }

  /** The latest backup is determined by the listing: there is only one. */
  lemma LatestIsUnique(listing: set<string>, fileName: string, a: string, b: string)
    requires IsLatest(listing, fileName, a) && IsLatest(listing, fileName, b)
    ensures a == b
  {
    LexLeAntisymmetric(a, b);
  }

  // ---------------------------------------------------------------------
  // The file-system snapshot: directory listings, `os.makedirs` and
  // `shutil.copy2`

  /** One past the last slash of `path`, or 0 when it has none. */
  function SlashEnd(path: string): (n: nat)
    ensures n <= |path|
    ensures n > 0 ==> path[n - 1] == '/'
    ensures forall k :: n <= k < |path| ==> path[k] != '/'
    decreases |path|
  {
    if path == "" then 0
    else if path[|path| - 1] == '/' then |path|
    else SlashEnd(path[..|path| - 1])
  }

  predicate AllSlashes(s: string) {
    forall k :: 0 <= k < |s| ==> s[k] == '/'
  }

  function RStripSlashes(s: string): (r: string)
    ensures |r| <= |s| && r == s[..|r|]
    ensures r == "" || r[|r| - 1] != '/'
    decreases |s|
  {
    if s != "" && s[|s| - 1] == '/' then RStripSlashes(s[..|s| - 1]) else s
  }

  /** The head of `os.path.split` (`os.path.dirname`): up to the last slash,
      with the trailing slashes dropped unless the head is only slashes. */
  function SplitHead(path: string): (r: string)
    ensures |r| <= SlashEnd(path)
  {
    var head := path[..SlashEnd(path)];
    if head != "" && !AllSlashes(head) then RStripSlashes(head) else head
  }

  /** The tail of `os.path.split`: the text after the last slash. */
  function SplitTail(path: string): (r: string)
    ensures '/' !in r
  {
    path[SlashEnd(path)..]
  }

  /** `os.mkdir(name)` as `os.makedirs(..., exist_ok=True)` calls it, with
      `parent` the head it split off: an existing directory is accepted, an
      existing file is a FileExistsError, and a parent that is a file or is
      missing is a NotADirectoryError or a FileNotFoundError. The root and
      the working directory always exist. */
  function MakeDir(files: set<string>, dirs: set<string>, name: string, parent: string): (r: Result<set<string>>)
    ensures r.Ok? <==> name != "" && name !in files
                       && (name in dirs || parent == "" || AllSlashes(parent) || parent in dirs)
    ensures r.Ok? ==> r.value == dirs + {name}
    ensures r.Err? && name != "" && name !in files && name !in dirs && parent in files && !AllSlashes(parent) ==>
      r.error == NotADirectoryError
  {
    if name == "" then Err(FileNotFoundError)
    else if name in files then Err(FileExistsError)
    else if name in dirs then Ok(dirs)
    else if parent == "" || AllSlashes(parent) || parent in dirs then Ok(dirs + {name})
    else if parent in files then Err(NotADirectoryError)
    else Err(FileNotFoundError)
  }

  /** `os.makedirs(name, exist_ok=True)`: a missing parent is made first (a
      FileExistsError from doing so is ignored), then `name` itself. On
      success `name` is a directory, no directory is lost, and no new
      directory takes the place of a file. The early return of `makedirs`
      for a last component equal to `os.curdir` is not modelled: the
      normalised paths `create` passes have no `.` component. */
  function MakeDirs(files: set<string>, dirs: set<string>, name: string): (r: Result<set<string>>)
    ensures r.Ok? ==> dirs <= r.value && name in r.value
    ensures r.Ok? ==> forall d :: d in r.value && d !in dirs ==> d !in files
    ensures r.Ok? ==> name != "" && name !in files
    decreases |name|
  {
    var head := if SplitTail(name) == "" then SplitHead(SplitHead(name)) else SplitHead(name);
    var tail := if SplitTail(name) == "" then SplitTail(SplitHead(name)) else SplitTail(name);
    var made :=
      if head != "" && tail != "" && head !in files && head !in dirs then
        var sub := MakeDirs(files, dirs, head);
        if sub.Err? && sub.error == FileExistsError then Ok(dirs) else sub
      else Ok(dirs);
    if made.Err? then made else MakeDir(files, made.value, name, head)
  }

  /** `os.makedirs` of a path that is already a directory changes nothing
      whenever its parent is one too. */
  lemma MakeDirsExisting(files: set<string>, dirs: set<string>, name: string)
    requires name != "" && name in dirs && dirs !! files
    requires SplitTail(name) != "" && SplitHead(name) in dirs
    ensures MakeDirs(files, dirs, name) == Ok(dirs)
  {
  }

  /** A directory below a file cannot be made. */
  lemma MakeDirsUnderFile(files: set<string>, dirs: set<string>, name: string)
    requires name != "" && name !in files && name !in dirs
    requires SplitTail(name) != "" && SplitHead(name) in files && !AllSlashes(SplitHead(name))
    requires files !! dirs
    ensures MakeDirs(files, dirs, name) == Err(NotADirectoryError)
  {
  }

  /** Where `shutil.copy2(src, dst)` writes: into a directory destination
      under the source's base name. */
  function CopyTarget(dirs: set<string>, src: string, dst: string): string {
    if dst in dirs then PathJoin(dst, Basename(src)) else dst
  }

  /** `shutil.copy2(src, dst)` on the files of the snapshot: a path copied
      onto itself is a SameFileError, reading or writing a directory an
      IsADirectoryError, and a missing source a FileNotFoundError; otherwise
      the target holds the source's text and no other file changes. */
  function Copy2(files: map<string, string>, dirs: set<string>, src: string, dst: string): (r: Result<map<string, string>>)
    ensures var target := CopyTarget(dirs, src, dst);
      r.Ok? <==> src in files && src !in dirs && target !in dirs && target != src
    ensures var target := CopyTarget(dirs, src, dst);
      r.Ok? ==> && r.value.Keys == files.Keys + {target}
                && r.value[target] == files[src]
                && forall p :: p in files && p != target ==> r.value[p] == files[p]
  {
    var target := CopyTarget(dirs, src, dst);
    if target == src && (src in files || src in dirs) then Err(SameFileError)
    else if src in dirs then Err(IsADirectoryError)
    else if src !in files then Err(FileNotFoundError)
    else if target in dirs then Err(IsADirectoryError)
    else Ok(files[target := files[src]])
  }

  /** A backup copies back: after `src` is copied to `dst` and then
      overwritten, copying the backup onto `src` restores its old text and
      keeps everything else. */
  lemma BackupThenRestore(files: map<string, string>, dirs: set<string>, src: string, dst: string, text: string)
    requires src !in dirs && Copy2(files, dirs, src, dst).Ok?
    ensures var saved := Copy2(files, dirs, src, dst).value;
      var backup := CopyTarget(dirs, src, dst);
      Copy2(saved[src := text], dirs, backup, src) == Ok(saved[src := files[src]])
  {
    var saved := Copy2(files, dirs, src, dst).value;
    var backup := CopyTarget(dirs, src, dst);
    var edited := saved[src := text];
    assert CopyTarget(dirs, backup, src) == src;
    assert edited[backup] == files[src];
    assert edited[src := edited[backup]] == saved[src := files[src]];
  }

  /** `path` lies directly inside `dir`. */
  predicate ChildOf(dir: string, path: string) {
    var pre := DirPrefix(dir);
    |pre| < |path| && StartsWith(path, pre) && '/' !in path[|pre|..]
  }

  /** `os.listdir(dir)` over the paths of the snapshot: the names of the
      paths directly inside `dir`, each a single non-empty component. */
  function Entries(paths: set<string>, dir: string): (r: set<string>)
    ensures forall x :: x in r ==> x != "" && '/' !in x
  {
    set p | p in paths && ChildOf(dir, p) :: p[|DirPrefix(dir)|..]
  }

  /** Joining a single component to a directory puts it right after the
      directory's slash. */
  lemma JoinComponent(dir: string, x: string)
    requires dir != "" && x != "" && '/' !in x
    ensures PathJoin(dir, x) == DirPrefix(dir) + x
  {
    assert x[0] != '/';
  }

  /** Every listed name, joined to its directory, is a path of the snapshot. */
  lemma EntryPath(paths: set<string>, dir: string, x: string)
    requires dir != "" && x in Entries(paths, dir)
    ensures PathJoin(dir, x) in paths
  {
    var p :| p in paths && ChildOf(dir, p) && x == p[|DirPrefix(dir)|..];
    assert p == DirPrefix(dir) + x;
    JoinComponent(dir, x);
  }

  /** Adding the path `dir/x` adds exactly the name `x` to the listing of
      `dir`. */
  lemma EntriesAdd(paths: set<string>, dir: string, x: string)
    requires dir != "" && x != "" && '/' !in x
    ensures Entries(paths + {PathJoin(dir, x)}, dir) == Entries(paths, dir) + {x}
  {
    var p := PathJoin(dir, x);
    JoinComponent(dir, x);
    assert ChildOf(dir, p) && p[|DirPrefix(dir)|..] == x;
  }

  /** The base name of `dir/x` is `x`. */
  lemma BasenameOfJoin(dir: string, x: string)
    requires x != "" && '/' !in x
    ensures Basename(PathJoin(dir, x)) == x
  {
    SplitNoSep(x, '/');
    if dir == "" {
      assert PathJoin(dir, x) == x;
    } else if dir[|dir| - 1] == '/' {
      var stem := dir[..|dir| - 1];
      assert PathJoin(dir, x) == stem + ['/'] + x;
      SplitOnConcat(stem, x, '/');
    } else {
      assert PathJoin(dir, x) == dir + ['/'] + x;
      SplitOnConcat(dir, x, '/');
    }
  }

  /** A listing in `os.listdir` order: every name once, in any order. */
  predicate Enumerates(listing: seq<string>, names: set<string>) {
    && (forall i, j :: 0 <= i < j < |listing| ==> listing[i] != listing[j])
    && (forall x :: x in listing ==> x in names)
    && (forall x :: x in names ==> x in listing)
  }

  /** `os.listdir`: the order is the file system's, so any order will do. */
  method ListDir(names: set<string>) returns (listing: seq<string>)
    ensures Enumerates(listing, names)
  {
    listing := [];
    var rest := names;
    while rest != {}
      invariant rest <= names
      invariant forall x :: x in listing ==> x in names - rest
      invariant forall x :: x in names - rest ==> x in listing
      invariant forall i, j :: 0 <= i < j < |listing| ==> listing[i] != listing[j]
      decreases |rest|
    {
      var x :| x in rest;
      assert x !in listing;
      listing := listing + [x];
      rest := rest - {x};
    }
  }

  // ---------------------------------------------------------------------
  // The tool over a file-system snapshot

  /** `files` maps the paths of regular files to their text and `dirs`
      holds the paths of directories; listings, the backup directory's
      included, are derived from these paths. */
  class TextEditorTool {
    const baseDir: string
    const backupDir: string
    var files: map<string, string>
    var dirs: set<string>

    /** No path is both a file and a directory, and the backup directory
        exists. */
    ghost predicate Valid()
      reads this
    {
      files.Keys !! dirs && backupDir != "" && backupDir in dirs
    }

    predicate Exists(path: string)
      reads this
    {
      path in files || path in dirs
    }

    /** What `os.listdir(dir)` finds. */
    function Listing(dir: string): set<string>
      reads this
    {
      Entries(files.Keys + dirs, dir)
    }

    /** `backup_dir/<name>.<mtime>`, where `_backup_file` copies `path`. */
    function BackupPath(path: string, mtime: nat): string {
      PathJoin(backupDir, BackupName(path, mtime))
    }

    /** The backup directory lists the backup of `path` under `mtime`, and it
        holds `text`. */
    ghost predicate HoldsBackup(path: string, mtime: nat, text: string)
      reads this
    {
      BackupName(path, mtime) in Listing(backupDir)
      && BackupPath(path, mtime) in files && files[BackupPath(path, mtime)] == text
    }

    constructor Init(baseDir: string, backupDir: string, files: map<string, string>, dirs: set<string>)
      requires files.Keys !! dirs && backupDir != "" && backupDir in dirs
      ensures Valid()
      ensures this.baseDir == baseDir && this.backupDir == backupDir && this.files == files && this.dirs == dirs
    {
      this.baseDir := baseDir;
      this.backupDir := backupDir;
      this.files := files;
      this.dirs := dirs;
    }

    /** `TextEditorTool(base_dir, backup_dir)`: an empty base directory means
        the working directory, an empty backup directory means `.backups`
        inside the base, and the backup directory is made with
        `os.makedirs(..., exist_ok=True)`, whose error is the constructor's. */
    static method New(baseDir: string, backupDir: string, cwd: string,
                      files: map<string, string>, dirs: set<string>) returns (r: Result<TextEditorTool>)
      requires files.Keys !! dirs
      ensures var base := if baseDir == "" then cwd else baseDir;
        var backups := if backupDir == "" then PathJoin(base, ".backups") else backupDir;
        var made := MakeDirs(files.Keys, dirs, backups);
        && (r.Err? <==> made.Err?)
        && (r.Err? ==> r.error == made.error)
        && (r.Ok? ==> && fresh(r.value) && r.value.Valid()
                      && r.value.baseDir == base && r.value.backupDir == backups
                      && r.value.files == files && r.value.dirs == made.value)
    {
      var base := if baseDir == "" then cwd else baseDir;
      var backups := if backupDir == "" then PathJoin(base, ".backups") else backupDir;
      var made := MakeDirs(files.Keys, dirs, backups);
      if made.Err? {
        return Err(made.error);
      }
      var tool := new TextEditorTool.Init(base, backups, files, made.value);
      return Ok(tool);
    }

    /** `view`: a directory lists its entries, in some order, one per line;
        a missing path is a FileNotFoundError, and a file shows its numbered
        selection. */
    method View(filePath: string, viewRange: Option<seq<int>>) returns (r: Result<string>)
      ensures ValidatePath(baseDir, filePath).Err? ==> r == Err(ValueError)
      ensures ValidatePath(baseDir, filePath).Ok? ==>
        var abs := ValidatePath(baseDir, filePath).value;
        if abs in dirs then exists listing :: Enumerates(listing, Listing(abs)) && r == Ok(Join(listing, "\n"))
        else if abs !in files then r == Err(FileNotFoundError)
        else
          var sel := Selection(files[abs], viewRange);
          r == (if sel.Err? then Err(ValueError) else Ok(Join(Numbered(sel.value.0, sel.value.1), "\n")))
    {
      var checked := ValidatePath(baseDir, filePath);
      if checked.Err? {
        return Err(ValueError);
      }
      var abs := checked.value;
      if abs in dirs {
        var listing := ListDir(Listing(abs));
        return Ok(Join(listing, "\n"));
      }
      if abs !in files {
        return Err(FileNotFoundError);
      }
      r := ViewText(files[abs], viewRange);
    }

    /** `str_replace`: a match that is not unique is a ValueError; otherwise
        the file is copied to its backup and its single match replaced. An
        error leaves every file as it was. */
    method StrReplace(filePath: string, oldStr: string, newStr: string, mtime: nat) returns (r: Result<string>)
      requires Valid()
      modifies this
      ensures Valid() && dirs == old(dirs)
      ensures ValidatePath(baseDir, filePath).Err? ==> r == Err(ValueError) && files == old(files)
      ensures ValidatePath(baseDir, filePath).Ok? ==>
        var abs := ValidatePath(baseDir, filePath).value;
        if !old(Exists(abs)) then r == Err(FileNotFoundError) && files == old(files)
        else if abs in dirs then r == Err(IsADirectoryError) && files == old(files)
        else
          var replaced := ReplaceOnce(old(files)[abs], oldStr, newStr);
          var saved := Copy2(old(files), dirs, abs, BackupPath(abs, mtime));
          if replaced.Err? then r == Err(ValueError) && files == old(files)
          else if saved.Err? then r == Err(saved.error) && files == old(files)
          else r.Ok? && files == saved.value[abs := replaced.value]
      ensures r.Ok? && ValidatePath(baseDir, filePath).Ok? ==>
        var abs := ValidatePath(baseDir, filePath).value;
        abs in old(files) && (BackupPath(abs, mtime) !in dirs ==> HoldsBackup(abs, mtime, old(files)[abs]))
    {
      var checked := ValidatePath(baseDir, filePath);
      if checked.Err? {
        return Err(ValueError);
      }
      var abs := checked.value;
      if !Exists(abs) {
        return Err(FileNotFoundError);
      }
      if abs in dirs {
        return Err(IsADirectoryError);
      }
      var content := files[abs];
      var replaced := ReplaceOnce(content, oldStr, newStr);
      if replaced.Err? {
        return Err(ValueError);
      }
      var saved := Copy2(files, dirs, abs, BackupPath(abs, mtime));
      if saved.Err? {
        return Err(saved.error);
      }
      BackupListed(abs, mtime, saved.value);
      files := saved.value[abs := replaced.value];
      r := Ok("Successfully replaced text at exactly one location.");
    }

    /** A successful backup copy of `path` is listed in the backup directory
        and holds the file's text. */
    lemma BackupListed(path: string, mtime: nat, saved: map<string, string>)
      requires Valid() && path in files && path !in dirs
      requires Copy2(files, dirs, path, BackupPath(path, mtime)) == Ok(saved)
      ensures BackupPath(path, mtime) !in dirs ==>
        && BackupName(path, mtime) in Entries(saved.Keys + dirs, backupDir)
        && BackupPath(path, mtime) in saved && saved[BackupPath(path, mtime)] == files[path]
        && path in saved && BackupPath(path, mtime) != path
    {
      if BackupPath(path, mtime) !in dirs {
        BackupNamePlain(path, mtime);
        EntriesAdd(files.Keys + dirs, backupDir, BackupName(path, mtime));
        assert saved.Keys + dirs == files.Keys + dirs + {BackupPath(path, mtime)};
      }
    }

    /** `create`: an existing path is a FileExistsError; otherwise the parent
        directories are made, and then the file is written unless the path
        is a directory by now. */
    method Create(filePath: string, fileText: string) returns (r: Result<string>)
      requires Valid()
      modifies this
      ensures Valid()
      ensures ValidatePath(baseDir, filePath).Err? ==> r == Err(ValueError) && files == old(files) && dirs == old(dirs)
      ensures ValidatePath(baseDir, filePath).Ok? ==>
        var abs := ValidatePath(baseDir, filePath).value;
        if old(Exists(abs)) then r == Err(FileExistsError) && files == old(files) && dirs == old(dirs)
        else
          var made := MakeDirs(old(files).Keys, old(dirs), SplitHead(abs));
          if made.Err? then r == Err(made.error) && files == old(files) && dirs == old(dirs)
          else && dirs == made.value
               && (abs in made.value ==> r == Err(IsADirectoryError) && files == old(files))
               && (abs !in made.value ==> r.Ok? && files == old(files)[abs := fileText])
      ensures r.Ok? ==> forall d :: old(Listing(d)) <= Listing(d)
    {
      var checked := ValidatePath(baseDir, filePath);
      if checked.Err? {
        return Err(ValueError);
      }
      var abs := checked.value;
      if Exists(abs) {
        return Err(FileExistsError);
      }
      var made := MakeDirs(files.Keys, dirs, SplitHead(abs));
      if made.Err? {
        return Err(made.error);
      }
      dirs := made.value;
      if abs in dirs {
        return Err(IsADirectoryError);
      }
      files := files[abs := fileText];
      r := Ok("Successfully created " + filePath);
    }

    /** `insert`: the backup is taken before the line number is checked, so
        an IndexError still leaves a new backup behind but the file
        unchanged. */
    method Insert(filePath: string, insertLine: int, newStr: string, mtime: nat) returns (r: Result<string>)
      requires Valid()
      modifies this
      ensures Valid() && dirs == old(dirs)
      ensures ValidatePath(baseDir, filePath).Err? ==> r == Err(ValueError) && files == old(files)
      ensures ValidatePath(baseDir, filePath).Ok? ==>
        var abs := ValidatePath(baseDir, filePath).value;
        if !old(Exists(abs)) then r == Err(FileNotFoundError) && files == old(files)
        else if abs in dirs then r == Err(IsADirectoryError) && files == old(files)
        else
          var saved := Copy2(old(files), dirs, abs, BackupPath(abs, mtime));
          var inserted := InsertLines(ReadLines(old(files)[abs]), insertLine, newStr);
          if saved.Err? then r == Err(saved.error) && files == old(files)
          else if inserted.Err? then r == Err(IndexError) && files == saved.value
          else r.Ok? && files == saved.value[abs := Concat(inserted.value)]
      ensures (r.Ok? || r == Err(IndexError)) && ValidatePath(baseDir, filePath).Ok? ==>
        var abs := ValidatePath(baseDir, filePath).value;
        abs in old(files) && (BackupPath(abs, mtime) !in dirs ==> HoldsBackup(abs, mtime, old(files)[abs]))
    {
      var checked := ValidatePath(baseDir, filePath);
      if checked.Err? {
        return Err(ValueError);
      }
      var abs := checked.value;
      if !Exists(abs) {
        return Err(FileNotFoundError);
      }
      if abs in dirs {
        return Err(IsADirectoryError);
      }
      var content := files[abs];
      var saved := Copy2(files, dirs, abs, BackupPath(abs, mtime));
      if saved.Err? {
        return Err(saved.error);
      }
      BackupListed(abs, mtime, saved.value);
      files := saved.value;
      var inserted := InsertLines(ReadLines(content), insertLine, newStr);
      if inserted.Err? {
        return Err(IndexError);
      }
      files := files[abs := Concat(inserted.value)];
      r := Ok("Successfully inserted text after line " + IntToString(insertLine));
    }

    /** `undo_edit`: the greatest backup of the file's name in the backup
        directory is copied over it (into it, for a directory); no backup is
        a FileNotFoundError, and a failed copy raises the copy's error. */
    method UndoEdit(filePath: string) returns (r: Result<string>)
      requires Valid()
      modifies this
      ensures Valid() && dirs == old(dirs)
      ensures ValidatePath(baseDir, filePath).Err? ==> r == Err(ValueError)
      ensures ValidatePath(baseDir, filePath).Ok? ==>
        var abs := ValidatePath(baseDir, filePath).value;
        var listing := old(Listing(backupDir));
        && (!old(Exists(abs)) ==> r == Err(FileNotFoundError))
        && (old(Exists(abs)) && (forall f :: f in listing ==> !IsBackupOf(f, Basename(abs))) ==> r == Err(FileNotFoundError))
        && (old(Exists(abs)) ==> forall b :: IsLatest(listing, Basename(abs), b) ==>
              var src := PathJoin(backupDir, b);
              var restored := Copy2(old(files), dirs, src, abs);
              && old(Exists(src))
              && CopyTarget(dirs, src, abs) == (if abs in dirs then PathJoin(abs, b) else abs)
              && (restored.Err? ==> r == Err(restored.error))
              && (restored.Ok? ==> r.Ok? && files == restored.value))
      ensures r.Err? ==> files == old(files)
    {
      var checked := ValidatePath(baseDir, filePath);
      if checked.Err? {
        return Err(ValueError);
      }
      var abs := checked.value;
      if !Exists(abs) {
        return Err(FileNotFoundError);
      }
      ghost var listing := Listing(backupDir);
      var latest := LatestBackup(Listing(backupDir), Basename(abs));
      if latest.None? {
        return Err(FileNotFoundError);
      }
      var b := latest.value;
      var src := PathJoin(backupDir, b);
      EntryPath(files.Keys + dirs, backupDir, b);
      BasenameOfJoin(backupDir, b);
      var restored := Copy2(files, dirs, src, abs);
      if restored.Err? {
        r := Err(restored.error);
      } else {
        files := restored.value;
        r := Ok("Successfully restored " + abs + " from backup");
      }
      forall b' | IsLatest(listing, Basename(abs), b')
        ensures var src' := PathJoin(backupDir, b');
          var restored' := Copy2(old(files), dirs, src', abs);
          && old(Exists(src'))
          && CopyTarget(dirs, src', abs) == (if abs in dirs then PathJoin(abs, b') else abs)
          && (restored'.Err? ==> r == Err(restored'.error))
          && (restored'.Ok? ==> r.Ok? && files == restored'.value)
      {
        LatestIsUnique(listing, Basename(abs), b', b);
      }
    }
  }
}
