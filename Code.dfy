/**
  `CodeGen`: a buffer of indented source lines, each with blank lines before
  and after, rendered between a header and a footer comment.
*/
module Code {
  import opened Py

  const Header: string := "# -------------------- GENERATED CODE --------------------"
  const Footer: string := "# --------------------------------------------------------"

  /** The indentation unit, `CodeGen.indent`. */
  const Indent: string := "    "

  /** `_Line`: one line of code with its indent level and the blank lines around it. */
  datatype Line = Line(indent: int, codeStr: string, spaceBefore: int, spaceAfter: int)

  /** `" " * n` and `range(n)` treat a negative count as zero. */
  function Count(n: int): nat {
    if n < 0 then 0 else n
  }

  /** `CodeGen.indent * level`: four spaces per level. */
  function Indentation(level: nat): (r: string)
    ensures |r| == 4 * level
    ensures forall i :: 0 <= i < |r| ==> r[i] == ' '
  {
    if level == 0 then "" else Indentation(level - 1) + Indent
  }

  /** `n` empty strings. */
  function Blanks(n: nat): (r: seq<string>)
    ensures |r| == n && forall i :: 0 <= i < n ==> r[i] == ""
  {
    seq(n, _ => "")
  }

  /** The text of a line: `indent` times the indentation unit, then the code. */
  function Text(line: Line): string {
    Indentation(Count(line.indent)) + line.codeStr
  }

  /** What one line renders as: its leading blanks, its text, its trailing blanks. */
  function Block(line: Line): seq<string> {
    Blanks(Count(line.spaceBefore)) + [Text(line)] + Blanks(Count(line.spaceAfter))
  }

  /** The blocks of the lines, in order. */
  function Blocks(lines: seq<Line>): seq<string> {
    if lines == [] then [] else Blocks(lines[..|lines| - 1]) + Block(lines[|lines| - 1])
  }

  /** The output of `generate`: header, every line's block, footer. */
  function Render(lines: seq<Line>): seq<string> {
    [Header] + Blocks(lines) + [Footer]
  }

  /** How many strings a line renders as. */
  function Size(line: Line): nat {
    Count(line.spaceBefore) + 1 + Count(line.spaceAfter)
  }

  /** The total number of strings the lines render as. */
  function TotalSize(lines: seq<Line>): nat {
    if lines == [] then 0 else Size(lines[0]) + TotalSize(lines[1..])
  }

  // ---------------------------------------------------------------- properties of the rendering

  lemma {:induction false} TotalSizeAppend(a: seq<Line>, b: seq<Line>)
    ensures TotalSize(a + b) == TotalSize(a) + TotalSize(b)
    decreases |a|
  {
    if a != [] {
      assert (a + b)[0] == a[0];
      assert (a + b)[1..] == a[1..] + b;
      TotalSizeAppend(a[1..], b);
    } else {
      assert a + b == b;
    }
  }

  lemma {:induction false} BlocksAppend(a: seq<Line>, b: seq<Line>)
    ensures Blocks(a + b) == Blocks(a) + Blocks(b)
    decreases |b|
  {
    if b == [] {
      assert a + b == a;
    } else {
      var b' := b[..|b| - 1];
      var last := b[|b| - 1];
      assert (a + b)[..|a + b| - 1] == a + b';
      assert (a + b)[|a + b| - 1] == last;
      assert Blocks(a + b) == Blocks(a + b') + Block(last);
      assert Blocks(b) == Blocks(b') + Block(last);
      BlocksAppend(a, b');
    }
  }

  lemma BlocksSnoc(lines: seq<Line>, k: nat)
    requires k < |lines|
    ensures Blocks(lines[..k + 1]) == Blocks(lines[..k]) + Block(lines[k])
  {
    assert lines[..k + 1][..k] == lines[..k];
  }

  /** Each line renders as exactly `spaceBefore + 1 + spaceAfter` strings, negative counts taken as zero. */
  lemma {:induction false} BlocksLength(lines: seq<Line>)
    ensures |Blocks(lines)| == TotalSize(lines)
    decreases |lines|
  {
    if lines != [] {
      var init := lines[..|lines| - 1];
      BlocksLength(init);
      TotalSizeAppend(init, [lines[|lines| - 1]]);
      assert init + [lines[|lines| - 1]] == lines;
    }
  }

  /**
    `generate` begins with the header, ends with the footer, and has two more
    strings than the lines' blocks.
  */
  lemma RenderShape(lines: seq<Line>)
    ensures |Render(lines)| == 2 + TotalSize(lines)
    ensures Render(lines)[0] == Header
    ensures Render(lines)[|Render(lines)| - 1] == Footer
  {
    BlocksLength(lines);
  }

  /** The blocks of the lines before line `i` are followed by line `i`'s own block. */
  lemma BlockAt(lines: seq<Line>, i: nat)
    requires i < |lines|
    ensures var start := TotalSize(lines[..i]);
      start + Size(lines[i]) <= |Blocks(lines)| &&
      Blocks(lines)[start..start + Size(lines[i])] == Block(lines[i])
  {
    var before, after := lines[..i], lines[i + 1..];
    assert lines == before + [lines[i]] + after;
    BlocksAppend(before + [lines[i]], after);
    BlocksAppend(before, [lines[i]]);
    assert Blocks([lines[i]]) == Block(lines[i]) by {
      assert [lines[i]][..0] == [];
    }
    BlocksLength(before);
    assert Blocks(lines) == Blocks(before) + Block(lines[i]) + Blocks(after);
  }

  /**
    Line `i` renders, right after the header and the blocks of the lines
    before it, as its leading blanks, then its indented text, then its
    trailing blanks.
  */
  lemma RenderPlacesLine(lines: seq<Line>, i: nat)
    requires i < |lines|
    ensures var start := 1 + TotalSize(lines[..i]);
      && start + Size(lines[i]) <= |Render(lines)| - 1
      && (forall j :: start <= j < start + Count(lines[i].spaceBefore) ==> Render(lines)[j] == "")
      && Render(lines)[start + Count(lines[i].spaceBefore)] == Indentation(Count(lines[i].indent)) + lines[i].codeStr
      && (forall j :: start + Count(lines[i].spaceBefore) < j < start + Size(lines[i]) ==> Render(lines)[j] == "")
  {
    BlockAt(lines, i);
    BlockContents(lines[i]);
    var start := TotalSize(lines[..i]);
    RenderSlice(lines, start, start + Size(lines[i]));
    SliceIndex(Render(lines), 1 + start, 1 + start + Size(lines[i]), Block(lines[i]));
  }

  /** A run of the blocks appears in the rendering one place later, after the header. */
  lemma RenderSlice(lines: seq<Line>, lo: nat, hi: nat)
    requires lo <= hi <= |Blocks(lines)|
    ensures hi + 1 <= |Render(lines)| - 1
    ensures Render(lines)[1 + lo..1 + hi] == Blocks(lines)[lo..hi]
  {
  }

  /** The elements of a slice, by their place in the whole sequence. */
  lemma SliceIndex<T>(s: seq<T>, lo: nat, hi: nat, t: seq<T>)
    requires lo <= hi <= |s| && s[lo..hi] == t
    ensures forall j :: lo <= j < hi ==> s[j] == t[j - lo]
  {
    forall j | lo <= j < hi
      ensures s[j] == t[j - lo]
    {
      assert s[lo..hi][j - lo] == s[j];
    }
  }

  /** The indentation of a line is four spaces per level. */
  lemma TextIndent(line: Line)
    ensures |Text(line)| == 4 * Count(line.indent) + |line.codeStr|
    ensures forall i :: 0 <= i < 4 * Count(line.indent) ==> Text(line)[i] == ' '
    ensures Text(line)[4 * Count(line.indent)..] == line.codeStr
  {
  }

  /** The strings of one block: blanks around the line's text. */
  lemma BlockContents(line: Line)
    ensures |Block(line)| == Size(line)
    ensures forall j :: 0 <= j < Count(line.spaceBefore) ==> Block(line)[j] == ""
    ensures Block(line)[Count(line.spaceBefore)] == Text(line)
    ensures forall j :: Count(line.spaceBefore) < j < Size(line) ==> Block(line)[j] == ""
  {
  }

  // ---------------------------------------------------------------- the buffer

  class CodeGen {
    var lines: seq<Line>

    constructor ()
      ensures lines == []
    {
      lines := [];
    }

    /** `add`: appends one line and leaves the earlier ones as they were. */
    method Add(indent: int, codeStr: string, spaceBefore: int, spaceAfter: int)
      modifies this
      ensures lines == old(lines) + [Line(indent, codeStr, spaceBefore, spaceAfter)]
    {
      lines := lines + [Line(indent, codeStr, spaceBefore, spaceAfter)];
    }

    /** `generate`: the header, each line's block, the footer; `lines` is only read. */
    method Generate() returns (out: seq<string>)
      ensures out == Render(lines)
    {
      out := [Header];
      for k := 0 to |lines|
        invariant out == [Header] + Blocks(lines[..k])
      {
        var line := lines[k];
        var blankBefore := Count(line.spaceBefore);
        for b := 0 to blankBefore
          invariant out == [Header] + Blocks(lines[..k]) + Blanks(b)
        {
          out := out + [""];
        }
        out := out + [Indentation(Count(line.indent)) + line.codeStr];
        var blankAfter := Count(line.spaceAfter);
        for b := 0 to blankAfter
          invariant out == [Header] + Blocks(lines[..k]) + Blanks(blankBefore) + [Text(line)] + Blanks(b)
        {
          out := out + [""];
        }
        BlocksSnoc(lines, k);
      }
      assert lines[..|lines|] == lines;
      out := out + [Footer];
    }
  }

  /** `generate` reads the buffer only, so calling it twice gives equal output. */
  method GenerateTwice(code: CodeGen) returns (first: seq<string>, second: seq<string>)
    ensures first == second == Render(code.lines)
  {
    first := code.Generate();
    second := code.Generate();
  }

  // ---------------------------------------------------------------- args_to_attrs

  /** The line `args_to_attrs` adds for one argument name. */
  function AttrLine(key: string): Line {
    Line(2, "self." + key + " = " + key, 0, 0)
  }

  /** The names of `local_dict` other than `"self"`, in order. */
  function NonSelf(keys: seq<string>): (r: seq<string>)
    ensures forall k :: k in r <==> k in keys && k != "self"
    ensures |r| <= |keys|
  {
    if keys == [] then []
    else if keys[|keys| - 1] == "self" then NonSelf(keys[..|keys| - 1])
    else NonSelf(keys[..|keys| - 1]) + [keys[|keys| - 1]]
  }

  /**
    `args_to_attrs`: the buffer it fills before printing, one line
    `self.k = k` at indent 2 for each name of `local_dict` other than
    `"self"`, in the dict's order. The printing is not modelled.
  */
  method ArgsToAttrs(localDict: seq<(string, Value)>) returns (code: CodeGen)
    ensures fresh(code)
    ensures code.lines == AttrLines(NonSelf(ArgNames(localDict)))
  {
    code := new CodeGen();
    for k := 0 to |localDict|
      invariant code.lines == AttrLines(NonSelf(ArgNames(localDict[..k])))
    {
      var key := localDict[k].0;
      ArgNamesSnoc(localDict, k);
      if key != "self" {
        AttrLinesSnoc(NonSelf(ArgNames(localDict[..k])), key);
        code.Add(2, "self." + key + " = " + key, 0, 0);
      }
    }
    assert localDict[..|localDict|] == localDict;
  }

  /** One line per name, in order. */
  function AttrLines(keys: seq<string>): (r: seq<Line>)
    ensures |r| == |keys| && forall i :: 0 <= i < |keys| ==> r[i] == AttrLine(keys[i])
  {
    seq(|keys|, i requires 0 <= i < |keys| => AttrLine(keys[i]))
  }

  lemma AttrLinesSnoc(keys: seq<string>, key: string)
    ensures AttrLines(keys + [key]) == AttrLines(keys) + [AttrLine(key)]
  {
  }

  /** The names of one more entry, and those other than `"self"`. */
  lemma ArgNamesSnoc(localDict: seq<(string, Value)>, k: nat)
    requires k < |localDict|
    ensures ArgNames(localDict[..k + 1]) == ArgNames(localDict[..k]) + [localDict[k].0]
    ensures NonSelf(ArgNames(localDict[..k + 1])) ==
      NonSelf(ArgNames(localDict[..k])) + (if localDict[k].0 == "self" then [] else [localDict[k].0])
  {
    assert localDict[..k + 1][..k] == localDict[..k];
    var ns := ArgNames(localDict[..k]);
    assert (ns + [localDict[k].0])[..|ns|] == ns;
  }

  /** The names of `local_dict`, in order. */
  function ArgNames(localDict: seq<(string, Value)>): (r: seq<string>)
    ensures |r| == |localDict| && forall i :: 0 <= i < |r| ==> r[i] == localDict[i].0
  {
    if localDict == [] then [] else ArgNames(localDict[..|localDict| - 1]) + [localDict[|localDict| - 1].0]
  }

  /** Every name but `"self"` gets a line, and no line is added for `"self"`. */
  lemma ArgsToAttrsCovers(keys: seq<string>, key: string)
    ensures key != "self" && key in keys <==> AttrLine(key) in AttrLines(NonSelf(keys))
  {
    var lines := AttrLines(NonSelf(keys));
    if AttrLine(key) in lines {
      var i :| 0 <= i < |lines| && lines[i] == AttrLine(key);
      AttrLineInjective(NonSelf(keys)[i], key);
      assert NonSelf(keys)[i] in NonSelf(keys);
    }
    if key != "self" && key in keys {
      assert key in NonSelf(keys);
      var i :| 0 <= i < |NonSelf(keys)| && NonSelf(keys)[i] == key;
      assert lines[i] == AttrLine(key);
      assert lines[i] in lines;
    }
  }

  /** Different names give different lines. */
  lemma AttrLineInjective(a: string, b: string)
    requires AttrLine(a) == AttrLine(b)
    ensures a == b
  {
    var sa, sb := "self." + a + " = " + a, "self." + b + " = " + b;
    assert |sa| == 8 + 2 * |a| && |sb| == 8 + 2 * |b|;
    assert |a| == |b|;
    forall i | 0 <= i < |a|
      ensures a[i] == b[i]
    {
      assert sa[5 + i] == a[i] && sb[5 + i] == b[i];
    }
  }
}
