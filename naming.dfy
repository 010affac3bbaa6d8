/**
 * The names `compress_group` derives from a section title: the sanitised
 * title, the per-group output file and the per-configuration scratch
 * directory.
 */
module Naming {
  import opened Strings
  import opened PdfInputs

  /** A title made safe as a file name: colons dropped, slashes turned into dashes, spaces into underscores. */
  function Sanitize(title: string): string
  {
    ReplaceChar(ReplaceChar(ReplaceChar(title, ':', ""), '/', "-"), ' ', "_")
  }

  /** Reference definition: what each character of the title becomes. */
  function SanitizedChar(c: char): string
  {
    if c == ':' then "" else if c == '/' then "-" else if c == ' ' then "_" else [c]
  }

  function SanitizeEach(title: string): string
  {
    if title == [] then [] else SanitizedChar(title[0]) + SanitizeEach(title[1..])
  }

  /** The three passes act character by character. */
  lemma {:induction false} SanitizeIsPerChar(title: string)
    ensures Sanitize(title) == SanitizeEach(title)
    decreases |title|
  {
    if title != [] {
      var c, rest := title[0], title[1..];
      SanitizeIsPerChar(rest);
      var x1 := if c == ':' then "" else [c];
      var r1 := ReplaceChar(rest, ':', "");
      assert ReplaceChar(title, ':', "") == x1 + r1;
      ReplaceCharAppend(x1, r1, '/', "-");
      var x2 := ReplaceChar(x1, '/', "-");
      var r2 := ReplaceChar(r1, '/', "-");
      ReplaceCharAppend(x2, r2, ' ', "_");
      var x3 := ReplaceChar(x2, ' ', "_");
      assert x3 == SanitizedChar(c) by {
        if c != ':' {
          assert x1 == [c] && x1[1..] == [];
          if c != '/' {
            assert x2 == [c] && x2[1..] == [];
          } else {
            assert "-"[1..] == [];
          }
        }
      }
    }
  }

  /** The sanitised title holds no colon, slash or space. */
  lemma SanitizeClean(title: string)
    ensures ':' !in Sanitize(title) && '/' !in Sanitize(title) && ' ' !in Sanitize(title)
  {
    var a := ReplaceChar(title, ':', "");
    var b := ReplaceChar(a, '/', "-");
    assert ':' !in a && ':' !in b;
  }

  lemma SanitizeEachOfThree(x: char, m: char, y: char)
    ensures SanitizeEach([x, m, y]) == SanitizedChar(x) + SanitizedChar(m) + SanitizedChar(y)
  {
    var t := [x, m, y];
    assert t[1..] == [m, y] && t[1..][1..] == [y] && [y][1..] == [];
    assert SanitizeEach([y]) == SanitizedChar(y) + SanitizeEach([]);
    assert SanitizeEach([m, y]) == SanitizedChar(m) + SanitizeEach([y]);
    assert SanitizeEach(t) == SanitizedChar(x) + SanitizeEach([m, y]);
  }

  /** Distinct section titles can share one output name: a space and an underscore collide. */
  lemma SanitizeMergesTitles(x: char, y: char)
    requires x != ':' && x != '/' && x != ' ' && y != ':' && y != '/' && y != ' '
    ensures Sanitize([x, ' ', y]) == Sanitize([x, '_', y]) == [x, '_', y]
  {
    SanitizeIsPerChar([x, ' ', y]);
    SanitizeIsPerChar([x, '_', y]);
    SanitizeEachOfThree(x, ' ', y);
    SanitizeEachOfThree(x, '_', y);
  }

  /** `out_file`: the per-group output written next to the inputs. */
  function OutputName(title: string): (name: string)
    ensures StartsWith(name, "Anlagen-") && EndsWith(name, ".pdf")
  {
    "Anlagen-" + Sanitize(title) + ".pdf"
  }

  /**
   * A group's output is not the bundle's name, and it passes the input
   * filter, so a later run in the same directory takes it as an input.
   */
  lemma OutputNameIsReadBack(title: string)
    ensures OutputName(title) != OUTPUT_FILE
    ensures IsInputPdf(OutputName(title))
  {
    var name := OutputName(title);
    assert name[7] == '-' && OUTPUT_FILE[7] == '.';
    assert name[..5] == "Anlag";
  }

  /** The scratch directory name of one configuration: the resolution and the quality joined by an underscore. */
  function ConfigDirName(dpi: nat, quality: nat): string
  {
    NatToString(dpi) + "_" + NatToString(quality)
  }

  /** Distinct configurations get distinct scratch directories. */
  lemma ConfigDirNameInjective(d1: nat, q1: nat, d2: nat, q2: nat)
    requires ConfigDirName(d1, q1) == ConfigDirName(d2, q2)
    ensures d1 == d2 && q1 == q2
  {
    var a, b := NatToString(d1), NatToString(d2);
    var s := ConfigDirName(d1, q1);
    // The only underscore separates the two numbers.
    assert s[|a|] == '_' && s[|b|] == '_';
    assert forall i :: 0 <= i < |a| ==> s[i] == a[i];
    assert forall i :: 0 <= i < |b| ==> s[i] == b[i];
    assert |a| == |b|;
    assert a == s[..|a|] && b == s[..|b|];
    NatToStringInjective(d1, d2);
    assert NatToString(q1) == s[|a| + 1..] == NatToString(q2);
    NatToStringInjective(q1, q2);
  }
}
