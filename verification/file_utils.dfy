/** File helpers: the file a "save as" writes to, and the conversions between the glob
    patterns users type and the regular expressions that match file names. Each
    conversion is a fixed chain of `replaceAll` passes, modelled pass by pass. */
module FileUtils {
  import opened Wrappers
  import JavaText
  import JavaFile

  /** `getSaveAsFile(base, default, ext)`: inside a directory, the default name with the
      extension; otherwise the absolute path, with the extension added unless it already
      ends with it. Whether `base` is a directory and the working directory are inputs. */
  function GetSaveAsFile(base: string, isDirectory: bool, defaultName: string, ext: string, userDir: string): (r: string)
    ensures JavaText.EndsWith(r, ext)
    ensures !isDirectory ==>
              var abs := JavaFile.AbsolutePath(base, userDir);
              r == if JavaText.EndsWith(abs, ext) then abs else abs + ext
  {
    if isDirectory then
      var child := defaultName + ext;
      var r := JavaFile.Resolve(if base == [] then "/" else base, child);
      assert child[|child| - |ext|..] == ext;
      assert r[|r| - |ext|..] == r[|r| - |child|..][|child| - |ext|..];
      r
    else
      var abs := JavaFile.AbsolutePath(base, userDir);
      if JavaText.EndsWith(abs, ext) then abs
      else
        assert (abs + ext)[|abs + ext| - |ext|..] == ext;
        abs + ext
  }

  /** Saving again to the file a save chose gives the same file: the extension is not
      added twice. */
  lemma SaveAsIdempotent(base: string, defaultName: string, ext: string, userDir: string)
    requires JavaFile.IsAbsolute(userDir)
    ensures var f := GetSaveAsFile(base, false, defaultName, ext, userDir);
            GetSaveAsFile(f, false, defaultName, ext, userDir) == f
  {
    var f := GetSaveAsFile(base, false, defaultName, ext, userDir);
    if !JavaFile.IsAbsolute(base) && base != [] {
      assert f[0] == userDir[0];
    }
  }

  /** In a directory the file is named by the default name and extension, inside that
      directory. */
  lemma SaveAsInDirectory(dir: string, defaultName: string, ext: string, userDir: string)
    requires dir != [] && dir != "/"
    requires defaultName + ext != [] && '/' !in defaultName + ext
    ensures JavaFile.Name(GetSaveAsFile(dir, true, defaultName, ext, userDir)) == defaultName + ext
    ensures JavaFile.Parent(GetSaveAsFile(dir, true, defaultName, ext, userDir)) == Some(dir)
  {
    JavaFile.ResolveNameParent(dir, defaultName + ext);
  }

  // ---------------------------------------------------------------------------------
  // The replacement passes.

  /** `replaceAll` of a one-character literal: every `c` becomes `t`. */
  function ReplaceChar(s: string, c: char, t: string): (r: string)
    ensures c !in s ==> r == s
  {
    if s == [] then [] else (if s[0] == c then t else [s[0]]) + ReplaceChar(s[1..], c, t)
  }

  lemma {:induction false} ReplaceCharAppend(a: string, b: string, c: char, t: string)
    ensures ReplaceChar(a + b, c, t) == ReplaceChar(a, c, t) + ReplaceChar(b, c, t)
  {
    if a != [] {
      assert (a + b)[1..] == a[1..] + b;
      ReplaceCharAppend(a[1..], b, c, t);
    } else {
      assert a + b == b;
    }
  }

  /** `replaceAll` of a two-character literal `xy`, scanning left to right without
      overlaps: every `xy` becomes `t`. */
  function ReplacePair(s: string, x: char, y: char, t: string): (r: string)
  {
    if s == [] then []
    else if |s| >= 2 && s[0] == x && s[1] == y then t + ReplacePair(s[2..], x, y, t)
    else [s[0]] + ReplacePair(s[1..], x, y, t)
  }

  /** `replaceAll("(?<!\\\\)\\.(?!\\*)", "?")`: a `.` that neither follows a backslash nor
      precedes a `*` becomes `?`; `prev` is the character before `s`, if any. */
  function LoneDotsFrom(s: string, prev: Option<char>): (r: string)
    ensures |r| == |s|
  {
    if s == [] then []
    else
      var lone := s[0] == '.' && prev != Some('\\') && !(|s| >= 2 && s[1] == '*');
      [if lone then '?' else s[0]] + LoneDotsFrom(s[1..], Some(s[0]))
  }

  /** `globToRegex(glob)`: `.` to `\.`, then `*` to `.*`, `?` to `.`, `{` to `(`, `}` to
      `)` and `,` to `|`. */
  function GlobToRegex(glob: string): (r: string)
  {
    var s1 := ReplaceChar(glob, '.', "\\.");
    var s2 := ReplaceChar(s1, '*', ".*");
    var s3 := ReplaceChar(s2, '?', ".");
    var s4 := ReplaceChar(s3, '{', "(");
    var s5 := ReplaceChar(s4, '}', ")");
    ReplaceChar(s5, ',', "|")
  }

  /** `regexToGlob(regex)`: a lone `.` to `?`, then `.*` to `*`, `\.` to `.`, `(` to `{`,
      `)` to `}` and `|` to `,`. */
  function RegexToGlob(regex: string): (r: string)
  {
    var s1 := LoneDotsFrom(regex, None);
    var s2 := ReplacePair(s1, '.', '*', "*");
    var s3 := ReplacePair(s2, '\\', '.', ".");
    var s4 := ReplaceChar(s3, '(', "{");
    var s5 := ReplaceChar(s4, ')', "}");
    ReplaceChar(s5, '|', ",")
  }

  // ---------------------------------------------------------------------------------
  // The glob conversion is a character-by-character map.

  /** What one glob character becomes in the regular expression. */
  function GlobChar(c: char): (r: string)
    ensures r != []
  {
    match c
    case '.' => "\\."
    case '*' => ".*"
    case '?' => "."
    case '{' => "("
    case '}' => ")"
    case ',' => "|"
    case _ => [c]
  }

  /** The glob characters' images, one after another. */
  function MapGlob(glob: string): (r: string)
  {
    if glob == [] then [] else GlobChar(glob[0]) + MapGlob(glob[1..])
  }

  /** The six passes act on a concatenation piece by piece. */
  lemma GlobToRegexAppend(a: string, b: string)
    ensures GlobToRegex(a + b) == GlobToRegex(a) + GlobToRegex(b)
  {
    var a1, b1 := ReplaceChar(a, '.', "\\."), ReplaceChar(b, '.', "\\.");
    ReplaceCharAppend(a, b, '.', "\\.");
    var a2, b2 := ReplaceChar(a1, '*', ".*"), ReplaceChar(b1, '*', ".*");
    ReplaceCharAppend(a1, b1, '*', ".*");
    var a3, b3 := ReplaceChar(a2, '?', "."), ReplaceChar(b2, '?', ".");
    ReplaceCharAppend(a2, b2, '?', ".");
    var a4, b4 := ReplaceChar(a3, '{', "("), ReplaceChar(b3, '{', "(");
    ReplaceCharAppend(a3, b3, '{', "(");
    var a5, b5 := ReplaceChar(a4, '}', ")"), ReplaceChar(b4, '}', ")");
    ReplaceCharAppend(a4, b4, '}', ")");
    ReplaceCharAppend(a5, b5, ',', "|");
  }

  /** A one-character replacement on a one-character string. */
  lemma ReplaceCharOne(x: char, c: char, t: string)
    ensures ReplaceChar([x], c, t) == if x == c then t else [x]
  {
    assert [x][1..] == [];
  }

  /** The passes on one character give that character's image. */
  lemma GlobToRegexChar(c: char)
    ensures GlobToRegex([c]) == GlobChar(c)
  {
    ReplaceCharOne(c, '.', "\\.");
    if c == '.' {
      LaterPassesKeep("\\.", 1);
    } else {
      ReplaceCharOne(c, '*', ".*");
      if c == '*' {
        LaterPassesKeep(".*", 2);
      } else {
        ReplaceCharOne(c, '?', ".");
        if c == '?' {
          LaterPassesKeep(".", 3);
        } else {
          BracketPassesChar(c);
        }
      }
    }
  }

  /** The passes of `globToRegex` from the `k`-th on, on text that has none of the
      characters they replace. */
  function PassesFrom(s: string, k: nat): string {
    var s2 := if k <= 1 then ReplaceChar(s, '*', ".*") else s;
    var s3 := if k <= 2 then ReplaceChar(s2, '?', ".") else s2;
    ReplaceChar(ReplaceChar(ReplaceChar(s3, '{', "("), '}', ")"), ',', "|")
  }

  lemma LaterPassesKeep(s: string, k: nat)
    requires '?' !in s && '{' !in s && '}' !in s && ',' !in s
    requires k >= 2 || '*' !in s
    ensures PassesFrom(s, k) == s
  {
  }

  /** The last three passes of `globToRegex` on one character that is none of dot, star
      or question mark. */
  lemma BracketPassesChar(c: char)
    ensures ReplaceChar(ReplaceChar(ReplaceChar([c], '{', "("), '}', ")"), ',', "|") == GlobChar(c)
            || c == '.' || c == '*' || c == '?'
  {
    ReplaceCharOne(c, '{', "(");
    if c == '{' {
      ReplaceCharOne('(', '}', ")");
      ReplaceCharOne('(', ',', "|");
    } else {
      ReplaceCharOne(c, '}', ")");
      if c == '}' {
        ReplaceCharOne(')', ',', "|");
      } else {
        ReplaceCharOne(c, ',', "|");
      }
    }
  }

  /** `globToRegex` replaces each character by its image, independently of its
      neighbours: no pass rewrites what an earlier pass produced. */
  lemma {:induction false} GlobToRegexIsCharMap(glob: string)
    ensures GlobToRegex(glob) == MapGlob(glob)
  {
    if glob != [] {
      assert glob == [glob[0]] + glob[1..];
      GlobToRegexAppend([glob[0]], glob[1..]);
      GlobToRegexChar(glob[0]);
      GlobToRegexIsCharMap(glob[1..]);
    }
  }

  // ---------------------------------------------------------------------------------
  // The round trip.

  /** The characters the regular expression side gives other meanings: backslash,
      parentheses and bar. */
  predicate Special(c: char) { c == '\\' || c == '(' || c == ')' || c == '|' }

  /** A glob without those characters. */
  predicate PlainGlob(glob: string) {
    forall i :: 0 <= i < |glob| ==> !Special(glob[i])
  }

  lemma PlainGlobTail(glob: string)
    requires glob != [] && PlainGlob(glob)
    ensures !Special(glob[0]) && PlainGlob(glob[1..])
  {
    assert forall i :: 0 <= i < |glob[1..]| ==> glob[1..][i] == glob[i + 1];
  }

  /** What one glob character has become after the first `k` passes of `regexToGlob`
      (`k` is 1, 2 or 3). */
  function Stage(c: char, k: nat): (r: string)
    ensures r != [] && (k < 2 ==> r[0] != '*')
  {
    match c
    case '.' => if k < 3 then "\\." else "."
    case '*' => if k < 2 then ".*" else "*"
    case '?' => "?"
    case _ => GlobChar(c)
  }

  function MapStage(glob: string, k: nat): (r: string)
    ensures glob != [] && k < 2 ==> r != [] && r[0] != '*'
  {
    if glob == [] then [] else Stage(glob[0], k) + MapStage(glob[1..], k)
  }

  /** The images of glob characters never start with `*`. */
  lemma MapGlobFirst(glob: string)
    requires glob != []
    ensures MapGlob(glob)[0] != '*'
  {
    assert MapGlob(glob) == GlobChar(glob[0]) + MapGlob(glob[1..]);
  }

  /** The first pass on one character's image followed by a rest that does not start with
      `*`: only a dot from `?` is lone. */
  lemma LoneDotsStep(c: char, rest: string, prev: Option<char>)
    requires !Special(c) && prev != Some('\\') && (rest == [] || rest[0] != '*')
    ensures var g := GlobChar(c);
            && g[|g| - 1] != '\\'
            && LoneDotsFrom(g + rest, prev) == Stage(c, 1) + LoneDotsFrom(rest, Some(g[|g| - 1]))
  {
    var s := GlobChar(c) + rest;
    if c == '.' {
      assert s[1..] == "." + rest && s[1..][1..] == rest;
    } else if c == '*' {
      assert s[1..] == "*" + rest && s[1..][1..] == rest;
    } else {
      assert s[1..] == rest;
    }
  }

  /** The first pass turns exactly the dots that came from `?` into `?`. */
  lemma {:induction false} LoneDotsOfGlob(glob: string, prev: Option<char>)
    requires PlainGlob(glob) && prev != Some('\\')
    ensures LoneDotsFrom(MapGlob(glob), prev) == MapStage(glob, 1)
  {
    if glob != [] {
      PlainGlobTail(glob);
      var rest := MapGlob(glob[1..]);
      if rest != [] {
        MapGlobFirst(glob[1..]);
      }
      LoneDotsStep(glob[0], rest, prev);
      var g := GlobChar(glob[0]);
      LoneDotsOfGlob(glob[1..], Some(g[|g| - 1]));
    }
  }

  /** The second pass on one character's image followed by a rest that does not start
      with `*`. */
  lemma StarsStep(c: char, rest: string)
    requires !Special(c) && (rest == [] || rest[0] != '*')
    ensures ReplacePair(Stage(c, 1) + rest, '.', '*', "*") == Stage(c, 2) + ReplacePair(rest, '.', '*', "*")
  {
    StageShape(c);
    if c == '.' {
      PairSkipsChar('\\', "." + rest, '.', '*', "*");
      PairSkipsChar('.', rest, '.', '*', "*");
    } else if c == '*' {
      assert (".*" + rest)[2..] == rest;
    } else {
      PairSkipsChar(Stage(c, 1)[0], rest, '.', '*', "*");
    }
  }

  /** The three stages of one plain character: a dot and a star change, every other
      character is one character that is none of dot, star or backslash. */
  lemma StageShape(c: char)
    requires !Special(c)
    ensures c == '.' ==> Stage(c, 1) == "\\." == Stage(c, 2) && Stage(c, 3) == "."
    ensures c == '*' ==> Stage(c, 1) == ".*" && Stage(c, 2) == "*" == Stage(c, 3)
    ensures c != '.' && c != '*' ==>
              && |Stage(c, 1)| == 1 && Stage(c, 1) == Stage(c, 2) == Stage(c, 3)
              && Stage(c, 1)[0] != '.' && Stage(c, 1)[0] != '*' && Stage(c, 1)[0] != '\\'
  {
  }

  /** A character that does not start the pair, or is not followed by its second half,
      passes through unchanged. */
  lemma PairSkipsChar(a: char, rest: string, x: char, y: char, t: string)
    requires a != x || rest == [] || rest[0] != y
    ensures ReplacePair([a] + rest, x, y, t) == [a] + ReplacePair(rest, x, y, t)
  {
    assert ([a] + rest)[1..] == rest;
  }

  /** The second pass turns exactly the `.*` that came from `*` into `*`. */
  lemma {:induction false} StarsOfGlob(glob: string)
    requires PlainGlob(glob)
    ensures ReplacePair(MapStage(glob, 1), '.', '*', "*") == MapStage(glob, 2)
  {
    if glob != [] {
      PlainGlobTail(glob);
      StarsStep(glob[0], MapStage(glob[1..], 1));
      StarsOfGlob(glob[1..]);
    }
  }

  /** The third pass on one character's image. */
  lemma EscapedDotsStep(c: char, rest: string)
    requires !Special(c)
    ensures ReplacePair(Stage(c, 2) + rest, '\\', '.', ".") == Stage(c, 3) + ReplacePair(rest, '\\', '.', ".")
  {
    var s := Stage(c, 2) + rest;
    if c == '.' {
      assert s[2..] == rest;
    } else {
      assert s[1..] == rest;
    }
  }

  /** The third pass turns exactly the `\.` that came from `.` into `.`. */
  lemma {:induction false} EscapedDotsOfGlob(glob: string)
    requires PlainGlob(glob)
    ensures ReplacePair(MapStage(glob, 2), '\\', '.', ".") == MapStage(glob, 3)
  {
    if glob != [] {
      PlainGlobTail(glob);
      EscapedDotsStep(glob[0], MapStage(glob[1..], 2));
      EscapedDotsOfGlob(glob[1..]);
    }
  }

  /** The last three passes. */
  function Brackets(s: string): (r: string)
  {
    ReplaceChar(ReplaceChar(ReplaceChar(s, '(', "{"), ')', "}"), '|', ",")
  }

  lemma BracketsAppend(a: string, b: string)
    ensures Brackets(a + b) == Brackets(a) + Brackets(b)
  {
    ReplaceCharAppend(a, b, '(', "{");
    var a1, b1 := ReplaceChar(a, '(', "{"), ReplaceChar(b, '(', "{");
    ReplaceCharAppend(a1, b1, ')', "}");
    ReplaceCharAppend(ReplaceChar(a1, ')', "}"), ReplaceChar(b1, ')', "}"), '|', ",");
  }

  /** The last three passes give a plain character back from its third-stage image. */
  lemma BracketsChar(c: char)
    requires !Special(c)
    ensures Brackets(Stage(c, 3)) == [c]
  {
    var x := Stage(c, 3)[0];
    assert Stage(c, 3) == [x];
    ReplaceCharOne(x, '(', "{");
    if x == '(' {
      ReplaceCharOne('{', ')', "}");
      ReplaceCharOne('{', '|', ",");
    } else {
      ReplaceCharOne(x, ')', "}");
      if x == ')' {
        ReplaceCharOne('}', '|', ",");
      } else {
        ReplaceCharOne(x, '|', ",");
      }
    }
  }

  /** The last three passes undo the bracket and comma images one character at a time. */
  lemma {:induction false} BracketsOfGlob(glob: string)
    requires PlainGlob(glob)
    ensures Brackets(MapStage(glob, 3)) == glob
  {
    if glob != [] {
      PlainGlobTail(glob);
      BracketsAppend(Stage(glob[0], 3), MapStage(glob[1..], 3));
      BracketsChar(glob[0]);
      BracketsOfGlob(glob[1..]);
      assert glob == [glob[0]] + glob[1..];
    }
  }

  /** `regexToGlob` undoes `globToRegex` on every glob without backslash, parentheses or
      bar. */
  lemma RegexToGlobOfGlobToRegex(glob: string)
    requires PlainGlob(glob)
    ensures RegexToGlob(GlobToRegex(glob)) == glob
  {
    GlobToRegexIsCharMap(glob);
    LoneDotsOfGlob(glob, None);
    StarsOfGlob(glob);
    EscapedDotsOfGlob(glob);
    BracketsOfGlob(glob);
  }

  /** Outside that class the round trip fails: a parenthesis comes back as a brace. */
  lemma ParenthesisComesBackAsBrace()
    ensures RegexToGlob(GlobToRegex("(")) == "{"
  {
    GlobToRegexChar('(');
    assert LoneDotsFrom("(", None) == "(";
    assert ReplacePair("(", '.', '*', "*") == "(";
    assert ReplacePair("(", '\\', '.', ".") == "(";
    ReplaceCharOne('(', '(', "{");
    ReplaceCharOne('{', ')', "}");
    ReplaceCharOne('{', '|', ",");
  }
}
