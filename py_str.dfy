/** The Python string built-ins the retrieval core relies on: str.isspace,
    str.split() without argument, str.split(c), str.strip(), sep.join,
    str.lower and the extension part of os.path.splitext. A string is a
    sequence of Unicode code points, as in Python 3. */
module PyStr {

  /** The characters for which str.isspace() holds. str.split() and
      str.strip(), both without argument, use exactly this set. */
  predicate IsSpace(c: char) {
    || ('\t' <= c <= '\r')
    || ('\U{1C}' <= c <= ' ')
    || c == '\U{85}' || c == '\U{A0}' || c == '\U{1680}'
    || ('\U{2000}' <= c <= '\U{200A}')
    || c == '\U{2028}' || c == '\U{2029}' || c == '\U{202F}' || c == '\U{205F}'
    || c == '\U{3000}'
  }

  /** No character of s is whitespace. */
  predicate NoSpace(s: string) {
    forall i :: 0 <= i < |s| ==> !IsSpace(s[i])
  }

  /** Every character of s is whitespace; "" is blank. `not s.strip()` in Python. */
  predicate IsBlank(s: string) {
    forall i :: 0 <= i < |s| ==> IsSpace(s[i])
  }

  /** A word as str.split() yields it: non-empty, without whitespace. */
  predicate IsWord(w: string) {
    w != [] && NoSpace(w)
  }

  /** The length of the run of non-whitespace characters that starts s. */
  function WordLength(s: string): (n: nat)
    ensures n <= |s| && NoSpace(s[..n])
    ensures n < |s| ==> IsSpace(s[n])
  {
    if s == [] || IsSpace(s[0]) then 0
    else
      var m := WordLength(s[1..]);
      assert s[..1 + m] == [s[0]] + s[1..][..m];
      1 + m
  }

  /** str.split() with no argument: the maximal runs of non-whitespace characters. */
  function Split(s: string): (words: seq<string>)
    ensures forall i :: 0 <= i < |words| ==> IsWord(words[i])
    decreases |s|
  {
    if s == [] then []
    else if IsSpace(s[0]) then Split(s[1..])
    else
      var n := WordLength(s);
      [s[..n]] + Split(s[n..])
  }

  /** sep.join(parts) */
  function Join(sep: string, parts: seq<string>): string {
    if parts == [] then ""
    else if |parts| == 1 then parts[0]
    else parts[0] + sep + Join(sep, parts[1..])
  }

  /** The length of the run of whitespace that starts s. */
  function LeadingSpace(s: string): (n: nat)
    ensures n <= |s| && IsBlank(s[..n])
    ensures n < |s| ==> !IsSpace(s[n])
  {
    if s != [] && IsSpace(s[0]) then
      var m := LeadingSpace(s[1..]);
      assert s[..1 + m] == [s[0]] + s[1..][..m];
      1 + m
    else 0
  }

  /** The length of the run of whitespace that ends s. */
  function TrailingSpace(s: string): (n: nat)
    ensures n <= |s| && IsBlank(s[|s| - n..])
    ensures n < |s| ==> !IsSpace(s[|s| - n - 1])
  {
    if s != [] && IsSpace(s[|s| - 1]) then
      var init := s[..|s| - 1];
      var m := TrailingSpace(init);
      var tail := s[|s| - (1 + m)..];
      assert IsBlank(tail) by {
        forall i | 0 <= i < |tail| ensures IsSpace(tail[i]) {
          if i < m {
            assert tail[i] == init[|init| - m..][i];
          }
        }
      }
      assert 1 + m < |s| ==> s[|s| - (1 + m) - 1] == init[|init| - m - 1];
      1 + m
    else 0
  }

  /** r is s without a blank prefix of length a and a blank suffix of length b. */
  predicate TrimOf(s: string, r: string, a: nat, b: nat) {
    && a + b <= |s|
    && r == s[a..|s| - b]
    && IsBlank(s[..a])
    && IsBlank(s[|s| - b..])
  }

  /** str.strip() with no argument: s without its leading and trailing
      whitespace. */
  function Strip(s: string): (r: string)
    ensures exists a: nat, b: nat :: TrimOf(s, r, a, b)
    ensures r == [] <==> IsBlank(s)
    ensures r != [] ==> !IsSpace(r[0]) && !IsSpace(r[|r| - 1])
    ensures |r| <= |s|
  {
    var a := LeadingSpace(s);
    var t := s[a..];
    var b := TrailingSpace(t);
    if a == |s| then
      assert s[..a] == s;
      assert TrimOf(s, [], a, 0);
      []
    else
      assert t[0] == s[a];
      assert b < |t|;
      assert t[..|t| - b] == s[a..|s| - b];
      assert t[|t| - b..] == s[|s| - b..];
      assert TrimOf(s, t[..|t| - b], a, b);
      t[..|t| - b]
  }

  /** A string without whitespace at either end is its own strip. */
  lemma {:induction false} StripTrimmed(s: string)
    requires s != [] ==> !IsSpace(s[0]) && !IsSpace(s[|s| - 1])
    ensures Strip(s) == s
  {
    if s != [] {
      assert LeadingSpace(s) == 0;
      assert TrailingSpace(s) == 0;
    }
  }

  /** str.strip() is idempotent. */
  lemma StripIdempotent(s: string)
    ensures Strip(Strip(s)) == Strip(s)
  {
    StripTrimmed(Strip(s));
  }

  /** str.split() yields nothing exactly when the string is blank. */
  lemma {:induction false} SplitBlank(s: string)
    ensures Split(s) == [] <==> IsBlank(s)
    decreases |s|
  {
    if s != [] {
      if IsSpace(s[0]) {
        SplitBlank(s[1..]);
        if IsBlank(s[1..]) {
          forall i | 0 <= i < |s| ensures IsSpace(s[i]) {
            if i > 0 { assert s[i] == s[1..][i - 1]; }
          }
        } else {
          var i :| 0 <= i < |s[1..]| && !IsSpace(s[1..][i]);
          assert !IsSpace(s[i + 1]);
        }
      }
    }
  }

  /** A word followed by nothing or by whitespace: its leading run is the word. */
  lemma {:induction false} WordLengthOfWord(w: string, rest: string)
    requires IsWord(w)
    requires rest != [] ==> IsSpace(rest[0])
    ensures WordLength(w + rest) == |w|
    decreases |w|
  {
    var s := w + rest;
    assert s[0] == w[0];
    if |w| > 1 {
      assert s[1..] == w[1..] + rest;
      WordLengthOfWord(w[1..], rest);
    } else {
      assert s[1..] == rest;
    }
  }

  /** Splitting words joined by single spaces gives the words back. */
  lemma {:induction false} SplitJoin(words: seq<string>)
    requires forall i :: 0 <= i < |words| ==> IsWord(words[i])
    ensures Split(Join(" ", words)) == words
    decreases |words|
  {
    if |words| == 1 {
      var w := words[0];
      WordLengthOfWord(w, "");
      assert w + "" == w;
      assert w[|w|..] == [];
      assert w[..|w|] == w;
    } else if |words| > 1 {
      var w := words[0];
      var rest := Join(" ", words[1..]);
      var s := w + (" " + rest);
      assert Join(" ", words) == s;
      WordLengthOfWord(w, " " + rest);
      assert s[..|w|] == w;
      assert s[|w|..] == " " + rest;
      assert (" " + rest)[1..] == rest;
      SplitJoin(words[1..]);
      assert words == [w] + words[1..];
    }
  }

  /** Words joined by single spaces start and end with a non-space character. */
  lemma {:induction false} JoinWordsEnds(words: seq<string>)
    requires words != []
    requires forall i :: 0 <= i < |words| ==> IsWord(words[i])
    ensures var s := Join(" ", words); s != [] && !IsSpace(s[0]) && !IsSpace(s[|s| - 1])
    decreases |words|
  {
    if |words| > 1 {
      JoinWordsEnds(words[1..]);
      var rest := Join(" ", words[1..]);
      assert Join(" ", words) == words[0] + " " + rest;
    }
  }

  /** Index of the first occurrence of c in s, or -1 (str.find). */
  function Find(s: string, c: char): (k: int)
    ensures -1 <= k < |s|
    ensures k >= 0 ==> s[k] == c
    ensures forall j :: 0 <= j < |s| && (k < 0 || j < k) ==> s[j] != c
  {
    if s == [] then -1
    else if s[0] == c then 0
    else
      var k := Find(s[1..], c);
      if k < 0 then -1 else k + 1
  }

  /** s.split(c) for a one-character separator: always at least one piece. */
  function SplitOn(s: string, c: char): (pieces: seq<string>)
    ensures pieces != []
    ensures forall p :: p in pieces ==> c !in p
    decreases |s|
  {
    var k := Find(s, c);
    if k < 0 then [s]
    else
      var head := s[..k];
      assert c !in head by {
        forall j | 0 <= j < |head| ensures head[j] != c {
          assert head[j] == s[j];
        }
      }
      [head] + SplitOn(s[k + 1..], c)
  }

  /** Joining pieces that do not hold the separator and splitting on it again
      gives the pieces back. */
  lemma {:induction false} SplitOnJoin(parts: seq<string>, c: char)
    requires parts != []
    requires forall i :: 0 <= i < |parts| ==> c !in parts[i]
    ensures SplitOn(Join([c], parts), c) == parts
    decreases |parts|
  {
    var p := parts[0];
    if |parts| == 1 {
      assert Find(p, c) < 0;
    } else {
      var rest := Join([c], parts[1..]);
      var s := p + [c] + rest;
      assert Join([c], parts) == s;
      assert Find(s, c) == |p| by {
        FindAfterPrefix(p, [c] + rest, c);
        assert s == p + ([c] + rest);
      }
      assert s[..|p|] == p;
      assert s[|p| + 1..] == rest;
      SplitOnJoin(parts[1..], c);
      assert parts == [p] + parts[1..];
    }
  }

  /** Find skips a prefix that does not hold c. */
  lemma {:induction false} FindAfterPrefix(p: string, rest: string, c: char)
    requires c !in p
    requires rest != [] && rest[0] == c
    ensures Find(p + rest, c) == |p|
    decreases |p|
  {
    if p != [] {
      assert (p + rest)[0] == p[0];
      assert (p + rest)[1..] == p[1..] + rest;
      FindAfterPrefix(p[1..], rest, c);
    } else {
      assert p + rest == rest;
    }
  }

  /** str.lower() on one character; only the ASCII letters are mapped. */
  function LowerChar(c: char): char {
    if 'A' <= c <= 'Z' then (c as int + 32) as char else c
  }

  /** str.lower(), for the ASCII letters. */
  function Lower(s: string): (r: string)
    ensures |r| == |s|
    ensures forall i :: 0 <= i < |s| ==> !('A' <= r[i] <= 'Z')
    ensures forall i :: 0 <= i < |s| && !('A' <= s[i] <= 'Z') ==> r[i] == s[i]
    ensures forall i :: 0 <= i < |s| && 'A' <= s[i] <= 'Z' ==> r[i] == (s[i] as int + 32) as char
  {
    seq(|s|, i requires 0 <= i < |s| => LowerChar(s[i]))
  }

  /** Index of the last occurrence of c in s, or -1 (str.rfind). */
  function RFind(s: string, c: char): (k: int)
    ensures -1 <= k < |s|
    ensures k >= 0 ==> s[k] == c
    ensures forall j :: k < j < |s| ==> s[j] != c
  {
    if s == [] then -1
    else if s[|s| - 1] == c then |s| - 1
    else RFind(s[..|s| - 1], c)
  }

  /** The extension part of posixpath.splitext: the text from the last dot of
      the last path component, provided something other than a dot precedes
      that dot within the component; otherwise "". */
  function Extension(path: string): (ext: string)
    ensures ext == [] || (ext[0] == '.' && |ext| <= |path| && ext == path[|path| - |ext|..])
    ensures forall j :: 0 < j < |ext| ==> ext[j] != '.' && ext[j] != '/'
  {
    var sep := RFind(path, '/');
    var dot := RFind(path, '.');
    if dot > sep && exists k :: sep < k < dot && path[k] != '.' then path[dot..] else ""
  }

  /** The extension of a path without '/' whose last dot is at k > 0. */
  lemma ExtensionAfterDot(path: string, k: nat)
    requires 0 < k < |path| && path[k] == '.' && path[0] != '.'
    requires forall j :: 0 <= j < |path| ==> path[j] != '/'
    requires forall j :: k < j < |path| ==> path[j] != '.'
    ensures Extension(path) == path[k..]
  {
    assert RFind(path, '/') == -1;
    assert RFind(path, '.') == k;
  }
}
