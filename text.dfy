/** String helpers with the semantics of the JavaScript built-ins the study
    logic relies on: `\s` and `\w` character classes, `toLowerCase` on ASCII,
    `trim`, `split(/\s+/)`, `replace(/\s+/g, ...)`, `includes` and the
    answer normaliser of the similarity scorer. */
module Text {

  /** JavaScript's `\s` class; `String.prototype.trim` strips exactly the same set. */
  predicate IsSpace(c: char) {
    var n := c as int;
    (0x09 <= n <= 0x0D) || n == 0x20 || n == 0xA0 || n == 0x1680 || (0x2000 <= n <= 0x200A)
    || n == 0x2028 || n == 0x2029 || n == 0x202F || n == 0x205F || n == 0x3000 || n == 0xFEFF
  }

  /** JavaScript's `\w` class (without the `u` flag): ASCII letters, digits and `_`. */
  predicate IsWordChar(c: char) {
    ('a' <= c <= 'z') || ('A' <= c <= 'Z') || ('0' <= c <= '9') || c == '_'
  }

  predicate IsUpper(c: char) {
    'A' <= c <= 'Z'
  }

  predicate NoSpaces(s: string) {
    forall k :: 0 <= k < |s| ==> !IsSpace(s[k])
  }

  function LowerChar(c: char): (d: char)
    ensures !IsUpper(d)
    ensures IsWordChar(d) == IsWordChar(c) && IsSpace(d) == IsSpace(c)
    ensures !IsUpper(c) ==> d == c
  {
    if IsUpper(c) then (c as int + 32) as char else c
  }

  /** `toLowerCase`, restricted to the ASCII letters. */
  function ToLower(s: string): (r: string)
    ensures |r| == |s|
    ensures forall k :: 0 <= k < |s| ==> r[k] == LowerChar(s[k])
  {
    seq(|s|, k requires 0 <= k < |s| => LowerChar(s[k]))
  }

  /** `replace(/[^\w\s]/g, '')`: keep only word and space characters, in order. */
  function KeepWordAndSpace(s: string): (r: string)
    ensures |r| <= |s|
    ensures forall c :: c in r ==> c in s && (IsWordChar(c) || IsSpace(c))
    ensures forall c :: c in s && (IsWordChar(c) || IsSpace(c)) ==> c in r
    ensures (forall c :: c in s ==> IsWordChar(c) || IsSpace(c)) ==> r == s
  {
    if s == [] then []
    else (if IsWordChar(s[0]) || IsSpace(s[0]) then [s[0]] else []) + KeepWordAndSpace(s[1..])
  }

  /** The filter works piecewise: together with the one-character cases this
      pins down that the kept characters appear in their original order and
      multiplicity. */
  lemma {:induction false} KeepWordAndSpaceAppend(a: string, b: string)
    ensures KeepWordAndSpace(a + b) == KeepWordAndSpace(a) + KeepWordAndSpace(b)
  {
    if a == [] {
      assert a + b == b;
    } else {
      assert (a + b)[0] == a[0];
      assert (a + b)[1..] == a[1..] + b;
      KeepWordAndSpaceAppend(a[1..], b);
    }
  }

  /** One character: kept exactly when it is a word or space character. */
  lemma KeepWordAndSpaceSingle(c: char)
    ensures KeepWordAndSpace([c]) == if IsWordChar(c) || IsSpace(c) then [c] else []
  {
    assert [c][1..] == [];
  }

  /** Drops the leading run of white space. */
  function TrimStart(s: string): (r: string)
    ensures |r| <= |s| && r == s[|s| - |r|..]
    ensures r == [] || !IsSpace(r[0])
    ensures s != [] && IsSpace(s[0]) ==> |r| < |s|
  {
    if s != [] && IsSpace(s[0]) then TrimStart(s[1..]) else s
  }

  /** What `TrimStart` drops is white space. */
  lemma {:induction false} TrimStartDropsSpaces(s: string)
    ensures forall k :: 0 <= k < |s| - |TrimStart(s)| ==> IsSpace(s[k])
  {
    if s != [] && IsSpace(s[0]) {
      TrimStartDropsSpaces(s[1..]);
      assert forall k :: 1 <= k < |s| ==> s[k] == s[1..][k - 1];
    }
  }

  /** Drops the trailing run of white space. */
  function TrimEnd(s: string): (r: string)
    ensures |r| <= |s| && r == s[..|r|]
    ensures r == [] || !IsSpace(r[|r| - 1])
  {
    if s != [] && IsSpace(s[|s| - 1]) then TrimEnd(s[..|s| - 1]) else s
  }

  /** What `TrimEnd` drops is white space. */
  lemma {:induction false} TrimEndDropsSpaces(s: string)
    ensures forall k :: |TrimEnd(s)| <= k < |s| ==> IsSpace(s[k])
  {
    if s != [] && IsSpace(s[|s| - 1]) {
      TrimEndDropsSpaces(s[..|s| - 1]);
    }
  }

  /** `String.prototype.trim`: white space stripped from both ends. */
  function Trim(s: string): (r: string)
    ensures |r| <= |s|
    ensures r == [] || (!IsSpace(r[0]) && !IsSpace(r[|r| - 1]))
  {
    var t := TrimStart(s);
    var r := TrimEnd(t);
    assert r == [] || r[0] == t[0];
    r
  }

  /** The trimmed text is the infix of `s` between a leading and a trailing run
      of white space, so it holds only characters of `s`. */
  lemma TrimIsInfix(s: string)
    ensures var r := Trim(s);
      var i := |s| - |TrimStart(s)|;
      i + |r| <= |s| && r == s[i..i + |r|]
      && (forall c :: c in r ==> c in s)
      && (forall k :: 0 <= k < i ==> IsSpace(s[k]))
      && (forall k :: i + |r| <= k < |s| ==> IsSpace(s[k]))
  {
    var t := TrimStart(s);
    var r := TrimEnd(t);
    assert Trim(s) == r;
    TrimStartDropsSpaces(s);
    TrimEndDropsSpaces(t);
    InfixOfSuffix(s, |s| - |t|, t, r);
  }

  /** A prefix `r` of the suffix `t` of `s` that starts at `i` is an infix of
      `s`, and what follows it in `s` is what follows it in `t`. */
  lemma InfixOfSuffix(s: string, i: nat, t: string, r: string)
    requires i + |t| == |s| && t == s[i..] && |r| <= |t| && r == t[..|r|]
    requires forall k :: |r| <= k < |t| ==> IsSpace(t[k])
    ensures r == s[i..i + |r|]
    ensures forall c :: c in r ==> c in s
    ensures forall k :: i + |r| <= k < |s| ==> IsSpace(s[k])
  {
    forall k | i + |r| <= k < |s|
      ensures IsSpace(s[k])
    {
      assert s[k] == t[k - i];
    }
    forall c | c in r
      ensures c in s
    {
      var j :| 0 <= j < |r| && r[j] == c;
      assert s[i + j] == c;
    }
  }

  /** The answer normaliser of the similarity scorer:
      `str.toLowerCase().replace(/[^\w\s]/g, '').trim()`. */
  function Normalize(s: string): (r: string)
    ensures |r| <= |s|
    ensures forall c :: c in r ==> (IsWordChar(c) || IsSpace(c)) && !IsUpper(c)
    ensures r == [] || (!IsSpace(r[0]) && !IsSpace(r[|r| - 1]))
  {
    var lower := ToLower(s);
    assert forall c :: c in lower ==> !IsUpper(c);
    var kept := KeepWordAndSpace(lower);
    TrimKeepsClass(kept);
    Trim(kept)
  }

  /** Trimming keeps text within the normaliser's character class. */
  lemma TrimKeepsClass(s: string)
    requires forall c :: c in s ==> (IsWordChar(c) || IsSpace(c)) && !IsUpper(c)
    ensures forall c :: c in Trim(s) ==> (IsWordChar(c) || IsSpace(c)) && !IsUpper(c)
  {
    TrimIsInfix(s);
  }

  /** Text of lower-case word and space characters, unspaced at both ends, is
      its own normal form. */
  lemma NormalizeFixed(t: string)
    requires forall c :: c in t ==> (IsWordChar(c) || IsSpace(c)) && !IsUpper(c)
    requires t == [] || (!IsSpace(t[0]) && !IsSpace(t[|t| - 1]))
    ensures Normalize(t) == t
  {
    assert forall k :: 0 <= k < |t| ==> !IsUpper(t[k]) by {
      forall k | 0 <= k < |t| ensures !IsUpper(t[k]) { assert t[k] in t; }
    }
    ToLowerNoUpper(t);
    assert KeepWordAndSpace(t) == t;
    TrimUntouched(t);
  }

  /** Normalising an already normalised answer changes nothing. */
  lemma NormalizeIdempotent(s: string)
    ensures Normalize(Normalize(s)) == Normalize(s)
  {
    NormalizeFixed(Normalize(s));
  }

  /** `s.split(/\s+/)` continued from a partial token `cur`: every maximal run of
      white space ends a token, so a leading or trailing run yields an empty token. */
  function SplitFrom(s: string, cur: string): (r: seq<string>)
    decreases |s|
    ensures |r| >= 1
    ensures NoSpaces(cur) ==> forall i :: 0 <= i < |r| ==> NoSpaces(r[i])
  {
    if s == [] then [cur]
    else if IsSpace(s[0]) then [cur] + SplitFrom(TrimStart(s), [])
    else SplitFrom(s[1..], cur + [s[0]])
  }

  /** `s.split(/\s+/)`. Never empty: `"".split(/\s+/)` is `[""]`. */
  function Split(s: string): (r: seq<string>)
    ensures |r| >= 1
    ensures forall i :: 0 <= i < |r| ==> NoSpaces(r[i])
  {
    SplitFrom(s, [])
  }

  /** `Array.prototype.join(sep)`. */
  function Join(ws: seq<string>, sep: string): string {
    if |ws| == 0 then []
    else if |ws| == 1 then ws[0]
    else ws[0] + sep + Join(ws[1..], sep)
  }

  /** `s.replace(/\s+/g, rep)`: each maximal run of white space becomes one `rep`. */
  function ReplaceSpaceRuns(s: string, rep: string): (r: string)
    decreases |s|
    ensures NoSpaces(rep) ==> NoSpaces(r)
    ensures forall c :: c in r ==> c in s || c in rep
    ensures rep != [] ==> (r == [] <==> s == [])
  {
    if s == [] then []
    else if IsSpace(s[0]) then rep + ReplaceSpaceRuns(TrimStart(s), rep)
    else [s[0]] + ReplaceSpaceRuns(s[1..], rep)
  }

  /** Joining a token in front of a non-empty list puts one separator after it. */
  lemma JoinCons(w: string, ws: seq<string>, sep: string)
    requires |ws| >= 1
    ensures Join([w] + ws, sep) == w + sep + Join(ws, sep)
  {
    assert ([w] + ws)[1..] == ws;
  }

  /** Joining the tokens of a split continued from `cur` is `cur` followed by
      the text with each white-space run replaced. */
  lemma {:induction false} JoinSplitFrom(s: string, cur: string, rep: string)
    decreases |s|, 1
    ensures Join(SplitFrom(s, cur), rep) == cur + ReplaceSpaceRuns(s, rep)
  {
    if s == [] {
    } else if IsSpace(s[0]) {
      JoinSplitFromSpace(s, cur, rep);
    } else {
      JoinSplitFromWord(s, cur, rep);
    }
  }

  /** A white-space run ends the token `cur` and becomes one separator. */
  lemma {:induction false} JoinSplitFromSpace(s: string, cur: string, rep: string)
    requires s != [] && IsSpace(s[0])
    decreases |s|, 0
    ensures Join(SplitFrom(s, cur), rep) == cur + ReplaceSpaceRuns(s, rep)
  {
    JoinSplitFrom(TrimStart(s), [], rep);
    JoinCons(cur, SplitFrom(TrimStart(s), []), rep);
  }

  /** A character outside white space extends the token `cur`. */
  lemma {:induction false} JoinSplitFromWord(s: string, cur: string, rep: string)
    requires s != [] && !IsSpace(s[0])
    decreases |s|, 0
    ensures Join(SplitFrom(s, cur), rep) == cur + ReplaceSpaceRuns(s, rep)
  {
    JoinSplitFrom(s[1..], cur + [s[0]], rep);
  }

  /** Replacing white-space runs is splitting on them and joining the tokens. */
  lemma ReplaceIsJoinOfSplit(s: string, rep: string)
    ensures ReplaceSpaceRuns(s, rep) == Join(Split(s), rep)
  {
    JoinSplitFrom(s, [], rep);
  }

  /** `s.includes(t)`. */
  function Contains(s: string, t: string): (r: bool)
    ensures r <==> exists i :: 0 <= i <= |s| - |t| && t <= s[i..]
  {
    if t <= s then
      assert t <= s[0..];
      true
    else if s == [] then false
    else
      var r := Contains(s[1..], t);
      assert forall i :: 1 <= i <= |s| - |t| ==> s[i..] == s[1..][i - 1..];
      r
  }

  /** Lower-casing text without capitals leaves it as it is. */
  lemma ToLowerNoUpper(s: string)
    requires forall k :: 0 <= k < |s| ==> !IsUpper(s[k])
    ensures ToLower(s) == s
  {
  }

  /** Text without white space has no run to replace. */
  lemma {:induction false} ReplaceNoSpaces(s: string, rep: string)
    requires NoSpaces(s)
    ensures ReplaceSpaceRuns(s, rep) == s
  {
    if s != [] {
      ReplaceNoSpaces(s[1..], rep);
    }
  }

  /** Text that neither starts nor ends with white space is its own trim. */
  lemma TrimUntouched(s: string)
    requires s == [] || (!IsSpace(s[0]) && !IsSpace(s[|s| - 1]))
    ensures Trim(s) == s
  {
  }

  /** `truncateText(text, maxLength)`: the text itself when it fits, otherwise its
      first `maxLength` characters followed by an ellipsis. */
  function Truncate(text: string, maxLength: nat): (r: string)
    ensures |text| <= maxLength ==> r == text
    ensures |r| <= maxLength + 3 && |r| <= |text| + 3
    ensures |text| > maxLength ==> |r| == maxLength + 3 && r[..maxLength] == text[..maxLength] && r[maxLength..] == "..."
  {
    if |text| <= maxLength then text else text[..maxLength] + "..."
  }
}
