/**
 * The line filter of `load_names_from_file`: each line is stripped, and
 * blank lines and lines starting with '#' are dropped. Opening and reading
 * the file is not modelled; the lines are a parameter.
 */
module CfNames {
  import opened Text

  /** `line.strip()` is non-empty and does not start with "#". */
  predicate KeepsLine(line: string) {
    var t := Strip(line);
    t != "" && !StartsWith(t, "#")
  }

  /** The names a file with these lines yields, in order. */
  function NamesOf(lines: seq<string>): seq<string>
    decreases |lines|
  {
    if lines == [] then []
    else
      var last := lines[|lines| - 1];
      NamesOf(lines[..|lines| - 1]) + (if KeepsLine(last) then [Strip(last)] else [])
  }

  method LoadNames(lines: seq<string>) returns (names: seq<string>)
    ensures names == NamesOf(lines)
  {
    names := [];
    for i := 0 to |lines|
      invariant names == NamesOf(lines[..i])
    {
      assert lines[..i + 1][..i] == lines[..i];
      assert NamesOf(lines[..i + 1]) == NamesOf(lines[..i]) + if KeepsLine(lines[i]) then [Strip(lines[i])] else [];
      var line := Strip(lines[i]);
      if line != "" && !StartsWith(line, "#") {
        names := names + [line];
      }
    }
    assert lines[..|lines|] == lines;
  }

  /** Lines are filtered one by one, so the names of a file come in the order of its lines. */
  lemma {:induction false} NamesOfAppend(a: seq<string>, b: seq<string>)
    ensures NamesOf(a + b) == NamesOf(a) + NamesOf(b)
    decreases |b|
  {
    if b == [] {
      assert a + b == a;
    } else {
      var init := b[..|b| - 1];
      assert (a + b)[..|a + b| - 1] == a + init;
      NamesOfAppend(a, init);
    }
  }

  /**
   * A name comes from some kept line, stripped; every kept line gives its
   * stripped text. Each name is non-empty, has no whitespace at either end
   * and does not start with '#'.
   */
  lemma {:induction false} NamesOfMembers(lines: seq<string>, n: string)
    ensures n in NamesOf(lines) <==> exists line :: line in lines && KeepsLine(line) && Strip(line) == n
    ensures n in NamesOf(lines) ==> n != "" && Tight(n) && n[0] != '#'
    decreases |lines|
  {
    if lines != [] {
      var init := lines[..|lines| - 1];
      var last := lines[|lines| - 1];
      NamesOfMembers(init, n);
      assert lines == init + [last];
      if n in NamesOf(lines) && !(n in NamesOf(init)) {
        assert KeepsLine(last) && n == Strip(last);
        assert !StartsWith(n, "#");
        assert n[..1] == [n[0]];
      }
    }
  }

  /**
   * A file holding a name, a blank line and a comment line, whatever
   * whitespace ends its lines, yields just the name.
   */
  lemma {:induction false} NameBlankComment(name: string, comment: string, eol: string)
    requires name != "" && Tight(name) && name[0] != '#'
    requires Tight(comment) && StartsWith(comment, "#")
    requires AllSpace(eol)
    ensures NamesOf([name + eol, eol, comment + eol]) == [name]
  {
    NameLineKept(name, eol);
    BlankLineDropped(eol);
    CommentLineDropped(comment, eol);
    OnlyFirstKept(name + eol, eol, comment + eol);
  }

  lemma OnlyFirstKept(a: string, b: string, c: string)
    requires KeepsLine(a) && !KeepsLine(b) && !KeepsLine(c)
    ensures NamesOf([a, b, c]) == [Strip(a)]
  {
    NamesOfOne(a);
    NamesOfOne(b);
    NamesOfOne(c);
    NamesOfAppend([a], [b]);
    NamesOfAppend([a, b], [c]);
    assert [a] + [b] == [a, b];
    assert [a, b] + [c] == [a, b, c];
  }

  lemma NameLineKept(name: string, eol: string)
    requires name != "" && Tight(name) && name[0] != '#'
    requires AllSpace(eol)
    ensures KeepsLine(name + eol) && Strip(name + eol) == name
  {
    StripTrailing(name, eol);
    assert name[..1] == [name[0]];
  }

  lemma BlankLineDropped(eol: string)
    requires AllSpace(eol)
    ensures !KeepsLine(eol)
  {
    StripTrailing([], eol);
    assert [] + eol == eol;
  }

  lemma CommentLineDropped(comment: string, eol: string)
    requires Tight(comment) && StartsWith(comment, "#")
    requires AllSpace(eol)
    ensures !KeepsLine(comment + eol)
  {
    StripTrailing(comment, eol);
  }

  lemma NamesOfOne(line: string)
    ensures NamesOf([line]) == if KeepsLine(line) then [Strip(line)] else []
  {
    assert [line][..0] == [];
  }

  /** "www.example.com", a blank line and "# comment" yield just "www.example.com". */
  lemma NamesFileExample()
    ensures NamesOf(["www.example.com\n", "\n", "# comment\n"]) == ["www.example.com"]
  {
    assert "www.example.com"[..1] == "w";
    assert "# comment"[..1] == "#";
    NameBlankComment("www.example.com", "# comment", "\n");
    assert "www.example.com" + "\n" == "www.example.com\n";
    assert "# comment" + "\n" == "# comment\n";
  }
}
