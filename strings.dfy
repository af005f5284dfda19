/** Python string and path operations the backend relies on, with the meaning
    Python gives them: truthiness, `startswith`, `in`, `lower`, `rfind`,
    `PurePath.name` / `PurePath.suffix`, `split('?')[0]` and `split()`. */
module Strings {

  datatype Option<+T> = None | Some(value: T)

  /** Python truthiness of an optional string: present and not empty. */
  predicate Truthy(o: Option<string>)
  {
    o.Some? && o.value != ""
  }

  /** `s.startswith(p)` */
  predicate StartsWith(s: string, p: string)
  {
    |p| <= |s| && s[..|p|] == p
  }

  /** `sub in s`: `sub` occurs in `s` at some position. */
  predicate Contains(s: string, sub: string)
    decreases |s|
  {
    StartsWith(s, sub) || (|s| > 0 && Contains(s[1..], sub))
  }

  /** An occurrence at a known position is an occurrence. */
  lemma {:induction false} ContainsAt(s: string, sub: string, i: nat)
    requires i + |sub| <= |s| && s[i..i + |sub|] == sub
    ensures Contains(s, sub)
    decreases i
  {
    if i > 0 {
      assert s[1..][i - 1..i - 1 + |sub|] == sub;
      ContainsAt(s[1..], sub, i - 1);
    }
  }

  /** A text lacking one of the characters of `sub` cannot contain `sub`. */
  lemma {:induction false} MissingCharNotContained(s: string, sub: string, c: char)
    requires c in sub && c !in s
    ensures !Contains(s, sub)
    decreases |s|
  {
    assert !StartsWith(s, sub) by {
      if |sub| <= |s| {
        var i :| 0 <= i < |sub| && sub[i] == c;
        assert s[..|sub|][i] == s[i] != c;
      }
    }
    if |s| > 0 {
      assert c !in s[1..] by {
        forall k | 0 <= k < |s| - 1 ensures s[1..][k] != c {
          assert s[1..][k] == s[k + 1];
        }
      }
      MissingCharNotContained(s[1..], sub, c);
    }
  }

  /** A character missing from three texts is missing from their concatenation. */
  lemma CharNotInConcat(a: string, b: string, c: string, x: char)
    requires x !in a && x !in b && x !in c
    ensures x !in a + b + c
  {
  }

  /** ASCII case mapping of `str.lower` (upper-case letters A to Z only). */
  function LowerChar(c: char): char
  {
    if 'A' <= c <= 'Z' then (c as int + 32) as char else c
  }

  /** `s.lower()` */
  function Lower(s: string): (r: string)
    ensures |r| == |s|
    ensures forall i :: 0 <= i < |s| ==> r[i] == LowerChar(s[i])
  {
    if |s| == 0 then [] else [LowerChar(s[0])] + Lower(s[1..])
  }

  /** Lower-casing works character by character, so it distributes over concatenation. */
  lemma LowerConcat(a: string, b: string)
    ensures Lower(a + b) == Lower(a) + Lower(b)
  {
    assert forall i :: 0 <= i < |a + b| ==> Lower(a + b)[i] == (Lower(a) + Lower(b))[i];
  }

  /** A lower-case letter that occurs in neither case in `s` is absent from `s.lower()`. */
  lemma LowerAvoids(s: string, c: char)
    requires 'a' <= c <= 'z' && c !in s && (c as int - 32) as char !in s
    ensures c !in Lower(s)
  {
    forall i | 0 <= i < |s| ensures Lower(s)[i] != c {
      assert s[i] != c && s[i] != (c as int - 32) as char;
    }
  }

  /** `s.rfind(c)`: the index of the last `c` in `s`, or -1 when there is none. */
  function LastIndexOf(s: string, c: char): (r: int)
    ensures -1 <= r < |s|
    ensures r >= 0 ==> s[r] == c
    ensures forall j :: r < j < |s| ==> s[j] != c
  {
    if |s| == 0 then -1
    else if s[|s| - 1] == c then |s| - 1
    else LastIndexOf(s[..|s| - 1], c)
  }

  /** `s.find(c)` read as a cut point: the index of the first `c`, or `|s|`. */
  function FirstIndexOf(s: string, c: char): (r: nat)
    ensures r <= |s|
    ensures r < |s| ==> s[r] == c
    ensures forall j :: 0 <= j < r ==> s[j] != c
  {
    if |s| == 0 then 0
    else if s[0] == c then 0
    else 1 + FirstIndexOf(s[1..], c)
  }

  /** `url.split('?')[0]`: the text before the first question mark. */
  function BeforeQuery(url: string): (r: string)
    ensures StartsWith(url, r) && '?' !in r
    ensures |r| < |url| ==> url[|r|] == '?'
  {
    url[..FirstIndexOf(url, '?')]
  }

  /** `PurePath(path).name` for a path without trailing separators: the text after the last '/'. */
  function FileName(path: string): (name: string)
    ensures '/' !in name
    ensures |name| <= |path| && path[|path| - |name|..] == name
  {
    path[LastIndexOf(path, '/') + 1..]
  }

  /** `PurePath(path).suffix`: the name from its last '.', provided that dot is
      neither the first nor the last character of the name; otherwise "". */
  function Suffix(path: string): (ext: string)
    ensures ext == "" || (|ext| >= 2 && ext[0] == '.' && '.' !in ext[1..] && '/' !in ext)
    ensures ext != "" ==>
      |ext| < |FileName(path)| && FileName(path)[|FileName(path)| - |ext|..] == ext
    ensures ext == "" <==>
      (forall j :: 0 < j < |FileName(path)| ==> FileName(path)[j] != '.')
      || (|FileName(path)| > 0 && FileName(path)[|FileName(path)| - 1] == '.')
  {
    var name := FileName(path);
    var i := LastIndexOf(name, '.');
    if 0 < i < |name| - 1 then name[i..] else ""
  }

  /** A file `stem + ext` placed in directory `dir` has suffix `ext`, when the stem
      is not empty and holds no separator (it may hold dots: the last one counts). */
  lemma SuffixOfJoined(dir: string, stem: string, ext: string)
    requires |stem| > 0 && '/' !in stem
    requires |ext| >= 2 && ext[0] == '.' && '/' !in ext && '.' !in ext[1..]
    ensures Suffix(dir + "/" + stem + ext) == ext
  {
    var path := dir + "/" + stem + ext;
    var slash := LastIndexOf(path, '/');
    assert path[|dir|] == '/';
    forall j | |dir| < j < |path| ensures path[j] != '/' {
      if j <= |dir| + |stem| {
        assert path[j] == stem[j - |dir| - 1];
      } else {
        assert path[j] == ext[j - |dir| - 1 - |stem|];
      }
    }
    assert slash == |dir|;
    var name := FileName(path);
    assert name == stem + ext;
    var dot := LastIndexOf(name, '.');
    assert name[|stem|] == '.';
    forall j | |stem| < j < |name| ensures name[j] != '.' {
      assert name[j] == ext[1..][j - |stem| - 1];
    }
    assert dot == |stem|;
    assert name[dot..] == ext;
  }

  /** Whitespace as `str.isspace` defines it. */
  predicate IsSpace(c: char)
  {
    var n := c as int;
    (9 <= n <= 13) || (28 <= n <= 32) || n == 0x85 || n == 0xA0 || n == 0x1680
    || (0x2000 <= n <= 0x200A) || n == 0x2028 || n == 0x2029 || n == 0x202F
    || n == 0x205F || n == 0x3000
  }

  /** `len(s.split())`: the number of maximal runs of non-whitespace characters,
      counted at the character that starts each run. */
  function WordCount(s: string): nat
  {
    if |s| == 0 then 0
    else WordCount(s[..|s| - 1])
         + (if !IsSpace(s[|s| - 1]) && (|s| == 1 || IsSpace(s[|s| - 2])) then 1 else 0)
  }

  /** Words are separated by whitespace, so there are at most (|s| + 1) / 2 of them,
      and there are none exactly when the text is all whitespace. */
  lemma {:induction false} WordCountBounds(s: string)
    ensures 2 * WordCount(s) <= |s| + 1
    ensures |s| > 0 && IsSpace(s[|s| - 1]) ==> 2 * WordCount(s) <= |s|
    ensures WordCount(s) == 0 <==> forall i :: 0 <= i < |s| ==> IsSpace(s[i])
  {
    if |s| > 0 {
      var t := s[..|s| - 1];
      WordCountBounds(t);
      assert forall i :: 0 <= i < |t| ==> t[i] == s[i];
      if |t| > 0 && !IsSpace(s[|s| - 1]) && !IsSpace(s[|s| - 2]) {
        assert !IsSpace(t[|t| - 1]);
        // the run continues: some character of t is not whitespace
        assert WordCount(t) != 0;
      }
    }
  }
}
