/** The OBJ line reader: each line is classified by its command character;
    vertex lines append three coordinates and face lines append three
    0-based vertex indices to two growing output buffers. */
module ObjParser {

  /** The characters a stream skips as white space. */
  predicate IsSpace(c: char) {
    c == ' ' || c == '\t' || c == '\n' || c == '\r' || c == '\U{000B}' || c == '\U{000C}'
  }

  /** A line made only of white space (the empty line included). */
  predicate IsBlank(s: string) {
    |s| == 0 || (IsSpace(s[0]) && IsBlank(s[1..]))
  }

  /** Equivalently: every character is white space. */
  lemma {:induction false} IsBlankAllSpaces(s: string)
    ensures IsBlank(s) <==> forall i :: 0 <= i < |s| ==> IsSpace(s[i])
  {
    if |s| > 0 {
      IsBlankAllSpaces(s[1..]);
      assert forall i :: 1 <= i < |s| ==> s[i] == s[1..][i - 1];
    }
  }

  /** is_blank is false for "asdad" and true for "\n", "\t" and "  ". */
  lemma IsBlankExamples()
    ensures !IsBlank("asdad")
    ensures IsBlank("\n") && IsBlank("\t") && IsBlank("  ")
  {
    assert !IsSpace("asdad"[0]);
  }

  /** The command character: the first character that is not white space,
      as reading one `char` from the line's stream yields it. */
  function Command(s: string): (c: char)
    requires !IsBlank(s)
    ensures !IsSpace(c)
  {
    if IsSpace(s[0]) then Command(s[1..]) else s[0]
  }

  /** Command(s) is the character after the leading white space of `s`. */
  lemma {:induction false} CommandAfterSpaces(s: string, i: nat)
    requires i < |s| && IsBlank(s[..i]) && !IsSpace(s[i])
    ensures !IsBlank(s) && Command(s) == s[i]
  {
    if i > 0 {
      assert s[1..][..i - 1] == s[..i][1..];
      CommandAfterSpaces(s[1..], i - 1);
    }
  }

  /** One line of an OBJ file: its text, and the three numbers that reading
      the rest of the line yields, taken as coordinates for a vertex line
      and as 1-based indices for a face line. */
  datatype Line = Line(text: string, coords: (real, real, real), indices: (int, int, int))

  /** The command of a line, or none for an empty or blank line. */
  function LineCommand(line: Line): (cmd: char)
    ensures cmd == ' ' <==> IsBlank(line.text)
  {
    if |line.text| == 0 || IsBlank(line.text) then ' ' else Command(line.text)
  }

  /** What one line appends to the vertex buffer. */
  function LineVertices(line: Line): seq<real> {
    if LineCommand(line) == 'v' then [line.coords.0, line.coords.1, line.coords.2] else []
  }

  /** What one line appends to the triangle buffer: the indices minus one. */
  function LineFaces(line: Line): seq<int> {
    if LineCommand(line) == 'f' then [line.indices.0 - 1, line.indices.1 - 1, line.indices.2 - 1] else []
  }

  /** What the lines append, in order, when each line appends `f(line)`. */
  function Appended<T>(lines: seq<Line>, f: Line -> seq<T>): seq<T> {
    if lines == [] then [] else Appended(lines[..|lines| - 1], f) + f(lines[|lines| - 1])
  }

  /** Everything a sequence of lines appends to the vertex buffer, in order. */
  function Vertices(lines: seq<Line>): seq<real> {
    Appended(lines, LineVertices)
  }

  /** Everything a sequence of lines appends to the triangle buffer, in order. */
  function Faces(lines: seq<Line>): seq<int> {
    Appended(lines, LineFaces)
  }

  /** How many lines of `lines` have command `cmd`. */
  function CountCommand(lines: seq<Line>, cmd: char): nat {
    if lines == [] then 0
    else CountCommand(lines[..|lines| - 1], cmd) + (if LineCommand(lines[|lines| - 1]) == cmd then 1 else 0)
  }

  /** Reads the lines in order. Empty and blank lines and lines whose command
      is '#' are skipped; a 'v' line appends its three coordinates to
      `vertices`; an 'f' line appends its three indices, less one, to `tris`;
      any other command is ignored. The buffers are passed in and out: what
      they held before is kept in front. Always returns 0. */
  method ParseObj(lines: seq<Line>, tris0: seq<int>, vertices0: seq<real>)
    returns (status: int, tris: seq<int>, vertices: seq<real>)
    ensures tris == tris0 + Faces(lines)
    ensures vertices == vertices0 + Vertices(lines)
    ensures status == 0
  {
    tris, vertices := tris0, vertices0;
    for n := 0 to |lines|
      invariant tris == tris0 + Faces(lines[..n])
      invariant vertices == vertices0 + Vertices(lines[..n])
    {
      assert lines[..n + 1][..n] == lines[..n];
      var line := lines[n];
      if |line.text| == 0 || IsBlank(line.text) {
        continue;
      }
      var cmd := Command(line.text);
      if cmd == '#' {
        continue;
      } else if cmd == 'v' {
        var (va, vb, vc) := line.coords;
        vertices := vertices + [va];
        vertices := vertices + [vb];
        vertices := vertices + [vc];
      } else if cmd == 'f' {
        var (i, j, k) := line.indices;
        tris := tris + [i - 1];
        tris := tris + [j - 1];
        tris := tris + [k - 1];
      }
    }
    assert lines[..|lines|] == lines;
    status := 0;
  }

  /** Reading two runs of lines one after the other appends what each run
      appends, in line order. */
  lemma {:induction false} AppendedConcat<T>(first: seq<Line>, second: seq<Line>, f: Line -> seq<T>)
    ensures Appended(first + second, f) == Appended(first, f) + Appended(second, f)
    decreases |second|
  {
    if second == [] {
      assert first + second == first;
    } else {
      var whole := first + second;
      var init := second[..|second| - 1];
      AppendedConcat(first, init, f);
      assert whole[..|whole| - 1] == first + init;
      assert whole[|whole| - 1] == second[|second| - 1];
    }
  }

  /** Both buffers grow in line order. */
  lemma AppendsInLineOrder(first: seq<Line>, second: seq<Line>)
    ensures Vertices(first + second) == Vertices(first) + Vertices(second)
    ensures Faces(first + second) == Faces(first) + Faces(second)
  {
    AppendedConcat(first, second, LineVertices);
    AppendedConcat(first, second, LineFaces);
  }

  /** A line that is empty, blank, a '#' comment or any command other than
      'v' and 'f' appends nothing to either buffer. */
  lemma IgnoredLine(line: Line)
    requires |line.text| == 0 || IsBlank(line.text) || Command(line.text) !in {'v', 'f'}
    ensures LineVertices(line) == [] && LineFaces(line) == []
  {
  }

  /** A run of lines none of which is a 'v' or an 'f' line appends nothing. */
  lemma {:induction false} IgnoredLines(lines: seq<Line>)
    requires forall i :: 0 <= i < |lines| ==> LineCommand(lines[i]) != 'v' && LineCommand(lines[i]) != 'f'
    ensures Vertices(lines) == [] && Faces(lines) == []
  {
    if lines != [] {
      IgnoredLines(lines[..|lines| - 1]);
    }
  }

  /** Three coordinates per 'v' line and three indices per 'f' line: read
      from empty buffers, the reported counts `vertices.size() / 3` and
      `tris.size() / 3` are the numbers of 'v' and 'f' lines. */
  lemma {:induction false} CountsMatchLines(lines: seq<Line>)
    ensures |Vertices(lines)| == 3 * CountCommand(lines, 'v')
    ensures |Faces(lines)| == 3 * CountCommand(lines, 'f')
    ensures |Vertices(lines)| % 3 == 0 && |Vertices(lines)| / 3 == CountCommand(lines, 'v')
    ensures |Faces(lines)| % 3 == 0 && |Faces(lines)| / 3 == CountCommand(lines, 'f')
  {
    if lines != [] {
      CountsMatchLines(lines[..|lines| - 1]);
    }
  }

  /** The k-th face line (0-based, counting only 'f' lines) contributes
      entries 3k, 3k+1 and 3k+2 of the triangle buffer, each one less than
      the index written on the line. */
  lemma {:induction false} FaceEntries(lines: seq<Line>, n: nat)
    requires n < |lines| && LineCommand(lines[n]) == 'f'
    ensures var k := CountCommand(lines[..n], 'f');
            3 * k + 2 < |Faces(lines)|
            && Faces(lines)[3 * k] == lines[n].indices.0 - 1
            && Faces(lines)[3 * k + 1] == lines[n].indices.1 - 1
            && Faces(lines)[3 * k + 2] == lines[n].indices.2 - 1
  {
    var k := CountCommand(lines[..n], 'f');
    assert lines == lines[..n] + [lines[n]] + lines[n + 1..];
    AppendedConcat(lines[..n] + [lines[n]], lines[n + 1..], LineFaces);
    AppendedConcat(lines[..n], [lines[n]], LineFaces);
    CountsMatchLines(lines[..n]);
    assert Faces([lines[n]]) == LineFaces(lines[n]) by {
      assert [lines[n]][..0] == [];
    }
  }

  /** The k-th vertex line contributes entries 3k, 3k+1 and 3k+2 of the
      vertex buffer, its coordinates in order. */
  lemma {:induction false} VertexEntries(lines: seq<Line>, n: nat)
    requires n < |lines| && LineCommand(lines[n]) == 'v'
    ensures var k := CountCommand(lines[..n], 'v');
            3 * k + 2 < |Vertices(lines)|
            && Vertices(lines)[3 * k] == lines[n].coords.0
            && Vertices(lines)[3 * k + 1] == lines[n].coords.1
            && Vertices(lines)[3 * k + 2] == lines[n].coords.2
  {
    var k := CountCommand(lines[..n], 'v');
    assert lines == lines[..n] + [lines[n]] + lines[n + 1..];
    AppendedConcat(lines[..n] + [lines[n]], lines[n + 1..], LineVertices);
    AppendedConcat(lines[..n], [lines[n]], LineVertices);
    CountsMatchLines(lines[..n]);
    assert Vertices([lines[n]]) == LineVertices(lines[n]) by {
      assert [lines[n]][..0] == [];
    }
  }

  /** Appending one line appends its own contribution. */
  lemma AppendedSnoc<T>(lines: seq<Line>, line: Line, f: Line -> seq<T>)
    ensures Appended(lines + [line], f) == Appended(lines, f) + f(line)
  {
    assert (lines + [line])[..|lines|] == lines;
  }

  /** A small file: a comment, a blank line, a vertex, a face with indices
      1 2 3 and a second vertex. */
  function ExampleFile(): seq<Line> {
    [ Line("# a triangle", (0.0, 0.0, 0.0), (0, 0, 0)),
      Line("  \t", (0.0, 0.0, 0.0), (0, 0, 0)),
      Line("v 1 2 3", (1.0, 2.0, 3.0), (0, 0, 0)),
      Line("f 1 2 3", (0.0, 0.0, 0.0), (1, 2, 3)),
      Line("v 0 0 1", (0.0, 0.0, 1.0), (0, 0, 0)) ]
  }

  /** The commands of the example file's lines. */
  lemma ExampleCommands()
    ensures LineCommand(ExampleFile()[0]) == '#' && LineCommand(ExampleFile()[1]) == ' '
    ensures LineCommand(ExampleFile()[2]) == 'v' && LineCommand(ExampleFile()[3]) == 'f'
    ensures LineCommand(ExampleFile()[4]) == 'v'
  {
    var file := ExampleFile();
    CommandAfterSpaces(file[0].text, 0);
    CommandAfterSpaces(file[2].text, 0);
    CommandAfterSpaces(file[3].text, 0);
    CommandAfterSpaces(file[4].text, 0);
    assert IsBlank(file[1].text);
  }

  /** The example file yields the coordinates of its two 'v' lines. */
  lemma ExampleVertices()
    ensures Vertices(ExampleFile()) == [1.0, 2.0, 3.0, 0.0, 0.0, 1.0]
  {
    var file := ExampleFile();
    ExampleCommands();
    assert file == [file[0]] + [file[1]] + [file[2]] + [file[3]] + [file[4]];
    AppendedSnoc([], file[0], LineVertices);
    AppendedSnoc([file[0]], file[1], LineVertices);
    AppendedSnoc([file[0]] + [file[1]], file[2], LineVertices);
    AppendedSnoc([file[0]] + [file[1]] + [file[2]], file[3], LineVertices);
    AppendedSnoc([file[0]] + [file[1]] + [file[2]] + [file[3]], file[4], LineVertices);
  }

  /** The example file yields the one triangle 0 1 2. */
  lemma ExampleFaces()
    ensures Faces(ExampleFile()) == [0, 1, 2]
  {
    var file := ExampleFile();
    ExampleCommands();
    assert file == [file[0]] + [file[1]] + [file[2]] + [file[3]] + [file[4]];
    AppendedSnoc([], file[0], LineFaces);
    AppendedSnoc([file[0]], file[1], LineFaces);
    AppendedSnoc([file[0]] + [file[1]], file[2], LineFaces);
    AppendedSnoc([file[0]] + [file[1]] + [file[2]], file[3], LineFaces);
    AppendedSnoc([file[0]] + [file[1]] + [file[2]] + [file[3]], file[4], LineFaces);
  }

  /** A vertex-normal line "vn ..." reads as command 'v', as does any line
      whose first non-blank character is 'v'. */
  lemma NormalLineReadsAsVertex()
    ensures !IsBlank("vn 0 0 1") && Command("vn 0 0 1") == 'v'
    ensures LineCommand(Line("vn 0 0 1", (0.0, 0.0, 0.0), (0, 0, 0))) == 'v'
  {
    CommandAfterSpaces("vn 0 0 1", 0);
  }

  /** Reading the example file into empty buffers. */
  method ParseExample() returns (status: int, tris: seq<int>, vertices: seq<real>)
    ensures status == 0
    ensures tris == [0, 1, 2]
    ensures vertices == [1.0, 2.0, 3.0, 0.0, 0.0, 1.0]
  {
    status, tris, vertices := ParseObj(ExampleFile(), [], []);
    ExampleVertices();
    ExampleFaces();
  }
}
