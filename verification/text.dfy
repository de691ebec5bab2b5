/**
 * String helpers of the query renderer: `Array.prototype.join`, `indentString` (a `/^/gm` replace), and a
 * line-level reading of both. Strings are sequences of characters.
 */
module Text {

  /** The separator used for every `join` of query lines. */
  const DELIMITER := "\n"

  /** The indentation width of nested blocks. */
  const INDENT := 2

  /** The characters after which the `m` flag of a JavaScript regular expression lets `^` match. */
  predicate IsLineTerminator(c: char) {
    c == '\n' || c == '\r' || c == '\U{2028}' || c == '\U{2029}'
  }

  /** A single line: text without any line terminator. */
  predicate NoBreaks(line: string) {
    forall c :: c in line ==> !IsLineTerminator(c)
  }

  predicate AllNoBreaks(lines: seq<string>) {
    forall l :: l in lines ==> NoBreaks(l)
  }

  /** `parts.join(sep)`. */
  function Join(parts: seq<string>, sep: string): string {
    if |parts| == 0 then ""
    else if |parts| == 1 then parts[0]
    else parts[0] + sep + Join(parts[1..], sep)
  }

  /** `' '.repeat(count)`. */
  function Spaces(count: nat): (r: string)
    ensures |r| == count && forall c :: c in r ==> c == ' '
  {
    if count == 0 then "" else " " + Spaces(count - 1)
  }

  /**
   * `indentString(str, count)`: `str.replace(/^/gm, ' '.repeat(count))`. With the `m` flag, `^` matches at
   * the start of the string and right after every line terminator (also at the very end when the string ends
   * with one), so the padding is inserted at each of those places.
   */
  function IndentString(str: string, count: nat): string {
    Spaces(count) + PadAfterBreaks(str, Spaces(count))
  }

  /** `str` with `pad` inserted after every line terminator. */
  function PadAfterBreaks(str: string, pad: string): string {
    if str == [] then []
    else [str[0]] + (if IsLineTerminator(str[0]) then pad else "") + PadAfterBreaks(str[1..], pad)
  }

  /** Line-level reading of indentation: every line gets `count` leading spaces. */
  function IndentLines(lines: seq<string>, count: nat): (r: seq<string>)
    ensures |r| == |lines|
    ensures forall i :: 0 <= i < |lines| ==> r[i] == Spaces(count) + lines[i]
  {
    if lines == [] then [] else [Spaces(count) + lines[0]] + IndentLines(lines[1..], count)
  }

  lemma {:induction false} JoinAppend(a: seq<string>, b: seq<string>, sep: string)
    requires |a| > 0 && |b| > 0
    ensures Join(a + b, sep) == Join(a, sep) + sep + Join(b, sep)
  {
    if |a| == 1 {
      assert a + b == [a[0]] + b;
    } else {
      assert (a + b)[1..] == a[1..] + b;
      JoinAppend(a[1..], b, sep);
    }
  }

  /** Joining a part that is itself a join with the same separator is the same as joining its pieces in place. */
  lemma {:induction false} JoinFlatten(a: seq<string>, pieces: seq<string>, b: seq<string>, sep: string)
    requires |pieces| > 0
    ensures Join(a + [Join(pieces, sep)] + b, sep) == Join(a + pieces + b, sep)
  {
    var x := Join(pieces, sep);
    if |a| == 0 {
      JoinFlattenFront(pieces, b, sep);
      assert a + [x] + b == [x] + b;
      assert a + pieces + b == pieces + b;
    } else {
      assert (a + [x] + b)[1..] == a[1..] + [x] + b;
      assert (a + pieces + b)[1..] == a[1..] + pieces + b;
      JoinFlatten(a[1..], pieces, b, sep);
    }
  }

  lemma JoinFlattenFront(pieces: seq<string>, b: seq<string>, sep: string)
    requires |pieces| > 0
    ensures Join([Join(pieces, sep)] + b, sep) == Join(pieces + b, sep)
  {
    if |b| > 0 {
      JoinAppend([Join(pieces, sep)], b, sep);
      JoinAppend(pieces, b, sep);
    } else {
      assert [Join(pieces, sep)] + b == [Join(pieces, sep)];
      assert pieces + b == pieces;
    }
  }

  /** Two joined parts flattened at once. */
  lemma JoinFlattenTwo(a: seq<string>, x: seq<string>, m: seq<string>, y: seq<string>, b: seq<string>, sep: string)
    requires |x| > 0 && |y| > 0
    ensures Join(a + [Join(x, sep)] + m + [Join(y, sep)] + b, sep) == Join(a + x + m + y + b, sep)
  {
    JoinFlatten(a, x, m + [Join(y, sep)] + b, sep);
    assert a + [Join(x, sep)] + (m + [Join(y, sep)] + b) == a + [Join(x, sep)] + m + [Join(y, sep)] + b;
    JoinFlatten(a + x + m, y, b, sep);
    assert a + x + (m + [Join(y, sep)] + b) == a + x + m + [Join(y, sep)] + b;
  }

  lemma {:induction false} PadAfterBreaksAppend(x: string, y: string, pad: string)
    ensures PadAfterBreaks(x + y, pad) == PadAfterBreaks(x, pad) + PadAfterBreaks(y, pad)
  {
    if x != [] {
      assert (x + y)[1..] == x[1..] + y;
      PadAfterBreaksAppend(x[1..], y, pad);
    } else {
      assert x + y == y;
    }
  }

  lemma {:induction false} PadAfterBreaksPlain(line: string, pad: string)
    requires NoBreaks(line)
    ensures PadAfterBreaks(line, pad) == line
  {
    if line != [] {
      assert line[0] in line;
      assert NoBreaks(line[1..]) by {
        forall c | c in line[1..] ensures !IsLineTerminator(c) {
          assert c in line;
        }
      }
      PadAfterBreaksPlain(line[1..], pad);
    }
  }

  /**
   * `indentString` on text made of `\n`-joined lines prefixes every line with `count` spaces and changes
   * nothing else.
   */
  lemma {:induction false} IndentJoin(lines: seq<string>, count: nat)
    requires |lines| > 0 && AllNoBreaks(lines)
    ensures IndentString(Join(lines, DELIMITER), count) == Join(IndentLines(lines, count), DELIMITER)
  {
    var pad := Spaces(count);
    assert lines[0] in lines;
    PadAfterBreaksPlain(lines[0], pad);
    if |lines| > 1 {
      var rest := Join(lines[1..], DELIMITER);
      var tail := IndentLines(lines[1..], count);
      assert AllNoBreaks(lines[1..]) by {
        forall l | l in lines[1..] ensures NoBreaks(l) {
          assert l in lines;
        }
      }
      PadAfterLine(lines[0], rest, pad);
      IndentJoin(lines[1..], count);
      assert IndentLines(lines, count) == [pad + lines[0]] + tail;
      assert ([pad + lines[0]] + tail)[1..] == tail;
      assert pad + (lines[0] + DELIMITER + (pad + PadAfterBreaks(rest, pad)))
          == (pad + lines[0]) + DELIMITER + (pad + PadAfterBreaks(rest, pad));
    }
  }

  /** Padding after the breaks of a line, a delimiter and more text pads only after that delimiter and within the rest. */
  lemma PadAfterLine(line: string, rest: string, pad: string)
    requires NoBreaks(line)
    ensures PadAfterBreaks(line + DELIMITER + rest, pad) == line + DELIMITER + pad + PadAfterBreaks(rest, pad)
  {
    PadAfterBreaksAppend(line + DELIMITER, rest, pad);
    PadAfterBreaksAppend(line, DELIMITER, pad);
    PadAfterBreaksPlain(line, pad);
  }

  /** A line with its leading spaces removed. */
  function StripSpaces(line: string): (r: string)
    ensures r == [] || r[0] != ' '
  {
    if line != [] && line[0] == ' ' then StripSpaces(line[1..]) else line
  }

  /** How many of `lines` consist of `keyword` after any leading spaces. */
  function KeywordCount(lines: seq<string>, keyword: string): nat {
    if lines == [] then 0
    else (if StripSpaces(lines[0]) == keyword then 1 else 0) + KeywordCount(lines[1..], keyword)
  }

  lemma {:induction false} StripSpacesAfterIndent(line: string, count: nat)
    ensures StripSpaces(Spaces(count) + line) == StripSpaces(line)
  {
    if count > 0 {
      assert (Spaces(count) + line)[1..] == Spaces(count - 1) + line;
      StripSpacesAfterIndent(line, count - 1);
    } else {
      assert Spaces(count) + line == line;
    }
  }

  lemma {:induction false} KeywordCountAppend(a: seq<string>, b: seq<string>, keyword: string)
    ensures KeywordCount(a + b, keyword) == KeywordCount(a, keyword) + KeywordCount(b, keyword)
  {
    if a != [] {
      assert (a + b)[1..] == a[1..] + b;
      KeywordCountAppend(a[1..], b, keyword);
    } else {
      assert a + b == b;
    }
  }

  /** Indenting lines never turns a line into a keyword line or back. */
  lemma {:induction false} KeywordCountIndent(lines: seq<string>, count: nat, keyword: string)
    ensures KeywordCount(IndentLines(lines, count), keyword) == KeywordCount(lines, keyword)
  {
    if lines != [] {
      StripSpacesAfterIndent(lines[0], count);
      KeywordCountIndent(lines[1..], count, keyword);
    }
  }
}
