/** `router`: which binding keys accept which routing keys. */
module Routing {
  import opened Bytes
  import opened Splitting

  const DOT: Str := [46]
  const STAR: Str := [42]
  const HASH: Str := [35]

  datatype ExchangeType = UnknownType | Direct | Fanout | Topic

  // ---- Legal keys ----

  predicate WordChar(ch: byte) {
    97 <= ch <= 122 || 65 <= ch <= 90 || 48 <= ch <= 57 || ch == 46 || ch == 95
  }

  /** Letters, digits, '.' and '_' only. */
  predicate LegalRoutingKey(key: Str) {
    forall i :: 0 <= i < |key| ==> WordChar(key[i])
  }

  predicate IsWildcard(word: Str) {
    word == STAR || word == HASH
  }

  /** A wildcard stands alone in its word, and '#' has neither a '#' nor a '*' beside it. */
  predicate LegalWords(words: seq<Str>) {
    && (forall i :: 0 <= i < |words| && (42 in words[i] || 35 in words[i]) ==> IsWildcard(words[i]))
    && (forall i :: 0 < i < |words| && IsWildcard(words[i - 1]) && IsWildcard(words[i]) ==>
          words[i - 1] == STAR && words[i] == STAR)
  }

  predicate LegalBindingKey(key: Str) {
    && (forall i :: 0 <= i < |key| ==> WordChar(key[i]) || key[i] == 42 || key[i] == 35)
    && LegalWords(Words(key, DOT))
  }

  /** The same byte by byte and word by word. */
  lemma {:induction false} LegalMeans(key: Str)
    ensures var words := Words(key, [46]);
            LegalBindingKey(key) <==>
              && (forall i :: 0 <= i < |key| ==>
                    97 <= key[i] <= 122 || 65 <= key[i] <= 90 || 48 <= key[i] <= 57 || key[i] in [46, 95, 42, 35])
              && (forall i :: 0 <= i < |words| ==>
                    (42 in words[i] ==> words[i] == [42]) && (35 in words[i] ==> words[i] == [35]))
              && (forall i :: 0 < i < |words| ==> !(words[i - 1] == [35] && words[i] in [[35], [42]])
                                                  && !(words[i - 1] == [42] && words[i] == [35]))
  {
    hide Words;
    var words := Words(key, DOT);
    forall i | 0 <= i < |words|
      ensures (42 in words[i] || 35 in words[i] ==> IsWildcard(words[i]))
              <==> (42 in words[i] ==> words[i] == [42]) && (35 in words[i] ==> words[i] == [35])
    {
    }
  }

  method IsLegalRoutingKey(key: Str) returns (legal: bool)
    ensures legal == LegalRoutingKey(key)
    ensures legal <==> forall i :: 0 <= i < |key| ==>
                         97 <= key[i] <= 122 || 65 <= key[i] <= 90 || 48 <= key[i] <= 57 || key[i] in [46, 95]
  {
    for i := 0 to |key|
      invariant forall j :: 0 <= j < i ==> WordChar(key[j])
    {
      var ch := key[i];
      if (97 <= ch <= 122) || (65 <= ch <= 90) || (48 <= ch <= 57) || ch == 46 || ch == 95 {
        continue;
      }
      return false;
    }
    return true;
  }

  method IsLegalBindingKey(key: Str) returns (legal: bool)
    ensures legal == LegalBindingKey(key)
  {
    for i := 0 to |key|
      invariant forall j :: 0 <= j < i ==> WordChar(key[j]) || key[j] == 42 || key[j] == 35
    {
      var ch := key[i];
      if (97 <= ch <= 122) || (65 <= ch <= 90) || (48 <= ch <= 57) || ch == 46 || ch == 95 || ch == 42 || ch == 35 {
        continue;
      }
      return false;
    }
    var _, words := Split(key, DOT, []);
    assert words == Words(key, DOT);
    WordsNotEmpty(key);
    legal := AreLegalWords(words);
  }

  method AreLegalWords(words: seq<Str>) returns (legal: bool)
    requires forall i :: 0 <= i < |words| ==> words[i] != []
    ensures legal == LegalWords(words)
  {
    for i := 0 to |words|
      invariant forall j :: 0 <= j < i && (42 in words[j] || 35 in words[j]) ==> IsWildcard(words[j])
    {
      assert |words[i]| == 1 ==> words[i] == [words[i][0]];
      if |words[i]| > 1 && (42 in words[i] || 35 in words[i]) {
        return false;
      }
    }
    var i := 1;
    while i < |words|
      invariant 1 <= i
      invariant forall j :: 0 < j < i && j < |words| && IsWildcard(words[j - 1]) && IsWildcard(words[j]) ==>
                  words[j - 1] == STAR && words[j] == STAR
    {
      if words[i] == STAR && words[i - 1] == HASH {
        return false;
      }
      if words[i] == HASH && words[i - 1] == HASH {
        return false;
      }
      if words[i] == HASH && words[i - 1] == STAR {
        return false;
      }
      i := i + 1;
    }
    return true;
  }

  lemma {:induction false} WordsNotEmpty(key: Str)
    ensures forall i :: 0 <= i < |Words(key, DOT)| ==> Words(key, DOT)[i] != []
  {
    SplitAgain(key, DOT);
  }

  // ---- The matching relation: '*' stands for one word, '#' for any number of words ----

  predicate Matches(pattern: seq<Str>, words: seq<Str>)
    decreases |pattern|
  {
    if pattern == [] then words == []
    else if pattern[0] == HASH then exists k :: 0 <= k <= |words| && Matches(pattern[1..], words[k..])
    else words != [] && (pattern[0] == STAR || pattern[0] == words[0]) && Matches(pattern[1..], words[1..])
  }

  /** The word `w` of a pattern stands for the first `n` of the words. */
  predicate StandsFor(w: Str, words: seq<Str>, n: nat) {
    n <= |words| && (w == HASH || (n == 1 && (w == STAR || w == words[0])))
  }

  lemma {:induction false} HeadMatches(pattern: seq<Str>, words: seq<Str>, n: nat)
    requires pattern != [] && StandsFor(pattern[0], words, n) && Matches(pattern[1..], words[n..])
    ensures Matches(pattern, words)
  {
  }

  lemma {:induction false} MatchedHead(pattern: seq<Str>, words: seq<Str>) returns (n: nat)
    requires pattern != [] && Matches(pattern, words)
    ensures StandsFor(pattern[0], words, n) && Matches(pattern[1..], words[n..])
  {
    n := 1;
    if pattern[0] == HASH {
      n :| 0 <= n <= |words| && Matches(pattern[1..], words[n..]);
    }
  }

  /** One pattern word: '*' is one word whatever it is, '#' any number of them, another word only itself. */
  lemma {:induction false} MatchesOne(w: Str, words: seq<Str>)
    ensures Matches([w], words)
            <==> w == [35] || (w == [42] && |words| == 1) || words == [w]
    ensures Matches([], words) <==> words == []
  {
    assert [w][1..] == [];
    if w == [35] {
      assert words[|words|..] == [];
    } else if words != [] {
      assert words == [words[0]] + words[1..];
    }
  }

  /** A pattern in two parts matches when the words split in two that match them. */
  lemma {:induction false} MatchesConcat(p: seq<Str>, q: seq<Str>, words: seq<Str>)
    ensures Matches(p + q, words) <==> exists k :: 0 <= k <= |words| && Matches(p, words[..k]) && Matches(q, words[k..])
    decreases |p|
  {
    if p == [] {
      assert p + q == q;
      assert words[..0] == [] && words[0..] == words;
    } else {
      assert (p + q)[0] == p[0] && (p + q)[1..] == p[1..] + q;
      if Matches(p + q, words) {
        SplitMatch(p, q, words);
      }
      if exists k :: 0 <= k <= |words| && Matches(p, words[..k]) && Matches(q, words[k..]) {
        var k :| 0 <= k <= |words| && Matches(p, words[..k]) && Matches(q, words[k..]);
        JoinMatch(p, q, words, k);
      }
    }
  }

  lemma {:induction false} SplitMatch(p: seq<Str>, q: seq<Str>, words: seq<Str>)
    requires p != [] && Matches(p + q, words)
    ensures exists k :: 0 <= k <= |words| && Matches(p, words[..k]) && Matches(q, words[k..])
    decreases |p|, 0
  {
    hide Matches;
    assert (p + q)[0] == p[0] && (p + q)[1..] == p[1..] + q;
    var n := MatchedHead(p + q, words);
    MatchesConcat(p[1..], q, words[n..]);
    var k :| 0 <= k <= |words[n..]| && Matches(p[1..], words[n..][..k]) && Matches(q, words[n..][k..]);
    assert words[n..][k..] == words[n + k..];
    assert words[..n + k][n..] == words[n..][..k];
    HeadMatches(p, words[..n + k], n);
  }

  lemma {:induction false} JoinMatch(p: seq<Str>, q: seq<Str>, words: seq<Str>, k: nat)
    requires p != [] && k <= |words| && Matches(p, words[..k]) && Matches(q, words[k..])
    ensures Matches(p + q, words)
    decreases |p|, 0
  {
    hide Matches;
    assert (p + q)[0] == p[0] && (p + q)[1..] == p[1..] + q;
    var n := MatchedHead(p, words[..k]);
    assert words[..k][n..] == words[n..][..k - n];
    assert words[k..] == words[n..][k - n..];
    MatchesConcat(p[1..], q, words[n..]);
    HeadMatches(p + q, words, n);
  }

  lemma {:induction false} MatchesLast(pattern: seq<Str>, words: seq<Str>)
    requires pattern != []
    ensures var p, last := pattern[..|pattern| - 1], pattern[|pattern| - 1];
            Matches(pattern, words) <==>
              exists k :: 0 <= k <= |words| && Matches(p, words[..k]) && Matches([last], words[k..])
  {
    var p, last := pattern[..|pattern| - 1], pattern[|pattern| - 1];
    assert pattern == p + [last];
    MatchesConcat(p, [last], words);
  }

  lemma {:induction false} MatchesSingle(word: Str, words: seq<Str>)
    ensures Matches([word], words) <==>
              word == HASH || (|words| == 1 && (word == STAR || word == words[0]))
  {
    assert [word][1..] == [];
    if word == HASH {
      assert words[|words|..] == [];
    } else if words != [] {
      assert words == [words[0]] + words[1..];
    }
  }

  /** A pattern ending in '#' matches when what precedes the '#' matches some prefix of the words. */
  lemma {:induction false} HashEnds(p: seq<Str>, words: seq<Str>)
    ensures Matches(p + [HASH], words) <==> exists k :: 0 <= k <= |words| && Matches(p, words[..k])
  {
    MatchesConcat(p, [HASH], words);
    forall k | 0 <= k <= |words| ensures Matches([HASH], words[k..]) {
      MatchesSingle(HASH, words[k..]);
    }
  }

  /** The relation cell by cell: a last '#' matches nothing or one more word than before. */
  lemma {:induction false} HashCell(p: seq<Str>, words: seq<Str>)
    ensures Matches(p + [HASH], words) <==>
              Matches(p, words) || (words != [] && Matches(p + [HASH], words[..|words| - 1]))
  {
    HashEnds(p, words);
    assert words[..|words|] == words;
    if words != [] {
      var shorter := words[..|words| - 1];
      HashEnds(p, shorter);
      forall k | 0 <= k <= |shorter| ensures shorter[..k] == words[..k] {
      }
    }
  }

  lemma {:induction false} WordCell(p: seq<Str>, last: Str, words: seq<Str>)
    requires last != HASH
    ensures Matches(p + [last], words) <==>
              words != [] && (last == STAR || last == words[|words| - 1]) && Matches(p, words[..|words| - 1])
  {
    var pattern := p + [last];
    assert pattern[..|p|] == p;
    MatchesLast(pattern, words);
    forall k | 0 <= k <= |words|
      ensures Matches([last], words[k..]) <==>
                k + 1 == |words| && (last == STAR || last == words[|words| - 1])
    {
      MatchesSingle(last, words[k..]);
    }
  }

  // ---- The table of `route` ----

  /** Cell (i, j) as the code computes it; only the first two cells of the first column are ever set. */
  predicate Cell(pattern: seq<Str>, words: seq<Str>, i: nat, j: nat)
    requires i <= |pattern| && j <= |words| && pattern != []
    decreases i + j
  {
    if j == 0 then i == 0 || (i == 1 && pattern[0] == HASH)
    else if i == 0 then false
    else if pattern[i - 1] == HASH then
      Cell(pattern, words, i - 1, j - 1) || Cell(pattern, words, i - 1, j) || Cell(pattern, words, i, j - 1)
    else if pattern[i - 1] == STAR then Cell(pattern, words, i - 1, j - 1)
    else pattern[i - 1] == words[j - 1] && Cell(pattern, words, i - 1, j - 1)
  }

  predicate StartsWithTwoHashes(pattern: seq<Str>) {
    |pattern| >= 2 && pattern[0] == HASH && pattern[1] == HASH
  }

  /** The first column: no words match only the empty pattern and patterns of '#' alone. */
  lemma {:induction false} FirstColumn(pattern: seq<Str>, i: nat)
    requires i <= |pattern| && pattern != [] && !StartsWithTwoHashes(pattern)
    ensures Matches(pattern[..i], []) <==> i == 0 || (i == 1 && pattern[0] == HASH)
  {
    if i > 0 {
      var front, last := pattern[..i - 1], pattern[i - 1];
      assert pattern[..i] == front + [last];
      if last == HASH {
        HashCell(front, []);
        FirstColumn(pattern, i - 1);
      } else {
        WordCell(front, last, []);
      }
    }
  }

  /** Every cell is the relation on the two prefixes. */
  lemma {:induction false} CellMatches(pattern: seq<Str>, words: seq<Str>, i: nat, j: nat)
    requires i <= |pattern| && j <= |words| && pattern != [] && !StartsWithTwoHashes(pattern)
    ensures Cell(pattern, words, i, j) <==> Matches(pattern[..i], words[..j])
    decreases i + j
  {
    if j == 0 {
      FirstColumn(pattern, i);
      assert words[..0] == [];
    } else if i > 0 {
      var front, last := pattern[..i - 1], pattern[i - 1];
      assert pattern[..i] == front + [last];
      assert words[..j][..j - 1] == words[..j - 1];
      CellMatches(pattern, words, i - 1, j - 1);
      if last == HASH {
        CellMatches(pattern, words, i - 1, j);
        CellMatches(pattern, words, i, j - 1);
        HashCell(front, words[..j]);
        HashCell(front, words[..j - 1]);
      } else {
        WordCell(front, last, words[..j]);
      }
    }
  }

  /** Cell (i, j) computed without the diagonal term of a '#' row. */
  predicate LeanCell(pattern: seq<Str>, words: seq<Str>, i: nat, j: nat)
    requires i <= |pattern| && j <= |words| && pattern != []
    decreases i + j
  {
    if j == 0 then i == 0 || (i == 1 && pattern[0] == HASH)
    else if i == 0 then false
    else if pattern[i - 1] == HASH then LeanCell(pattern, words, i - 1, j) || LeanCell(pattern, words, i, j - 1)
    else if pattern[i - 1] == STAR then LeanCell(pattern, words, i - 1, j - 1)
    else pattern[i - 1] == words[j - 1] && LeanCell(pattern, words, i - 1, j - 1)
  }

  /** The cell above or the cell to the left holds if the diagonal one does, for any pattern. */
  lemma {:induction false} DiagonalImplied(pattern: seq<Str>, words: seq<Str>, i: nat, j: nat)
    requires 0 < i <= |pattern| && 0 < j <= |words|
    requires pattern[i - 1] == HASH && Cell(pattern, words, i - 1, j - 1)
    ensures Cell(pattern, words, i - 1, j) || Cell(pattern, words, i, j - 1)
  {
    if j == 1 && i > 1 {
      assert Cell(pattern, words, 0, 0);
    }
  }

  /** Dropping the diagonal term of the '#' rows leaves the table unchanged, whatever the pattern. */
  lemma {:induction false} DiagonalRedundant(pattern: seq<Str>, words: seq<Str>, i: nat, j: nat)
    requires i <= |pattern| && j <= |words| && pattern != []
    ensures Cell(pattern, words, i, j) == LeanCell(pattern, words, i, j)
    decreases i + j
  {
    if i > 0 && j > 0 {
      DiagonalRedundant(pattern, words, i - 1, j - 1);
      if pattern[i - 1] == HASH {
        DiagonalRedundant(pattern, words, i - 1, j);
        DiagonalRedundant(pattern, words, i, j - 1);
        if Cell(pattern, words, i - 1, j - 1) {
          DiagonalImplied(pattern, words, i, j);
        }
      }
    }
  }

  lemma {:induction false} TableRight(pattern: seq<Str>, words: seq<Str>)
    requires pattern != [] && !StartsWithTwoHashes(pattern)
    ensures Cell(pattern, words, |pattern|, |words|) == Matches(pattern, words)
  {
    CellMatches(pattern, words, |pattern|, |words|);
    assert pattern[..|pattern|] == pattern && words[..|words|] == words;
  }

  /** The inner loop: one row from the row above and its own first cell. */
  method FillRow(table: array2<bool>, pattern: seq<Str>, words: seq<Str>, i: nat)
    requires table.Length0 == |pattern| + 1 && table.Length1 == |words| + 1 && 0 < i <= |pattern|
    requires forall a, b :: 0 <= a < i && 0 <= b <= |words| ==> table[a, b] == Cell(pattern, words, a, b)
    requires table[i, 0] == Cell(pattern, words, i, 0)
    modifies table
    ensures forall b :: 0 <= b <= |words| ==> table[i, b] == Cell(pattern, words, i, b)
    ensures forall a, b :: 0 <= a <= |pattern| && a != i && 0 <= b <= |words| ==> table[a, b] == old(table[a, b])
  {
    for j := 1 to |words| + 1
      invariant forall b :: 0 <= b < j ==> table[i, b] == Cell(pattern, words, i, b)
      invariant forall a, b :: 0 <= a <= |pattern| && a != i && 0 <= b <= |words| ==> table[a, b] == old(table[a, b])
    {
      if pattern[i - 1] == HASH {
        table[i, j] := table[i - 1, j - 1] || table[i - 1, j] || table[i, j - 1];
      } else if pattern[i - 1] == STAR {
        table[i, j] := table[i - 1, j - 1];
      } else {
        table[i, j] := pattern[i - 1] == words[j - 1] && table[i - 1, j - 1];
      }
    }
  }

  method FillTable(pattern: seq<Str>, words: seq<Str>) returns (matched: bool)
    requires pattern != []
    ensures matched == Cell(pattern, words, |pattern|, |words|)
  {
    var table := new bool[|pattern| + 1, |words| + 1]((_, _) => false);
    table[0, 0] := true;
    if pattern[0] == HASH {
      table[1, 0] := true;
    }
    for i := 1 to |pattern| + 1
      invariant forall a, b :: 0 <= a < i && 0 <= b <= |words| ==> table[a, b] == Cell(pattern, words, a, b)
      invariant forall a :: i <= a <= |pattern| ==> table[a, 0] == Cell(pattern, words, a, 0)
    {
      FillRow(table, pattern, words, i);
    }
    return table[|pattern|, |words|];
  }

  /** What a route decides; for a topic exchange the relation on the words of the two keys. */
  predicate Routes(kind: ExchangeType, bindingKey: Str, routingKey: Str) {
    && LegalRoutingKey(routingKey) && LegalBindingKey(bindingKey)
    && match kind
       case Direct => routingKey == bindingKey
       case Fanout => true
       case Topic => Matches(Words(bindingKey, DOT), Words(routingKey, DOT))
       case UnknownType => false
  }

  /** The code indexes the first word of a topic binding key, so it must have one. */
  predicate Routable(kind: ExchangeType, bindingKey: Str, routingKey: Str) {
    kind == Topic && LegalRoutingKey(routingKey) && LegalBindingKey(bindingKey) ==> Words(bindingKey, DOT) != []
  }

  method RouteTopic(bindingKey: Str, routingKey: Str) returns (r: bool)
    requires LegalBindingKey(bindingKey) && Words(bindingKey, DOT) != []
    ensures r == Matches(Words(bindingKey, DOT), Words(routingKey, DOT))
  {
    var _, pattern := Split(bindingKey, DOT, []);
    var _, words := Split(routingKey, DOT, []);
    assert pattern == Words(bindingKey, DOT) && words == Words(routingKey, DOT);
    LegalNeverStartsWithTwoHashes(bindingKey);
    TableRight(pattern, words);
    r := FillTable(pattern, words);
  }

  method Route(kind: ExchangeType, bindingKey: Str, routingKey: Str) returns (r: bool)
    requires Routable(kind, bindingKey, routingKey)
    ensures r == Routes(kind, bindingKey, routingKey)
    ensures r ==> LegalRoutingKey(routingKey) && LegalBindingKey(bindingKey)
    ensures LegalRoutingKey(routingKey) && LegalBindingKey(bindingKey) ==>
              && (kind == Direct ==> (r <==> routingKey == bindingKey))
              && (kind == Fanout ==> r)
              && (kind == Topic ==> (r <==> Matches(Words(bindingKey, [46]), Words(routingKey, [46]))))
              && (kind == UnknownType ==> !r)
  {
    var legal := IsLegalRoutingKey(routingKey);
    if !legal {
      return false;
    }
    legal := IsLegalBindingKey(bindingKey);
    if !legal {
      return false;
    }
    if kind == Direct {
      return routingKey == bindingKey;
    } else if kind == Fanout {
      return true;
    } else if kind == Topic {
      r := RouteTopic(bindingKey, routingKey);
    } else {
      return false;
    }
  }

  // ---- Why the legality rule is needed ----

  /** The fewest words that match: one for each pattern word that is not '#'. */
  function Instance(pattern: seq<Str>): (r: seq<Str>)
    ensures |r| <= |pattern|
  {
    if pattern == [] then []
    else if pattern[0] == HASH then Instance(pattern[1..])
    else [pattern[0]] + Instance(pattern[1..])
  }

  lemma {:induction false} InstanceMatches(pattern: seq<Str>)
    ensures Matches(pattern, Instance(pattern))
  {
    if pattern != [] {
      InstanceMatches(pattern[1..]);
      var r := Instance(pattern);
      if pattern[0] == HASH {
        assert r[0..] == r;
      } else {
        assert r[1..] == Instance(pattern[1..]);
      }
    }
  }

  /** With two leading '#' the computed table asks those two for at least one word. */
  lemma {:induction false} CellNeedsOneMore(pattern: seq<Str>, words: seq<Str>, i: nat, j: nat)
    requires 2 <= i <= |pattern| && j <= |words| && StartsWithTwoHashes(pattern)
    requires Cell(pattern, words, i, j)
    ensures j > |Instance(pattern[..i])|
    decreases i + j
  {
    var front, last := pattern[..i - 1], pattern[i - 1];
    assert pattern[..i] == front + [last];
    InstanceAppend(front, last);
    if i == 2 {
      assert pattern[..2] == [HASH, HASH];
      assert Instance([HASH, HASH]) == Instance([HASH, HASH][1..]) == Instance([]);
    } else if last == HASH {
      if Cell(pattern, words, i - 1, j - 1) {
        CellNeedsOneMore(pattern, words, i - 1, j - 1);
      } else if Cell(pattern, words, i - 1, j) {
        CellNeedsOneMore(pattern, words, i - 1, j);
      } else {
        CellNeedsOneMore(pattern, words, i, j - 1);
      }
    } else {
      CellNeedsOneMore(pattern, words, i - 1, j - 1);
    }
  }

  lemma {:induction false} InstanceAppend(p: seq<Str>, last: Str)
    ensures Instance(p + [last]) == Instance(p) + (if last == HASH then [] else [last])
  {
    if p == [] {
      assert p + [last] == [last] && [last][1..] == [];
    } else {
      assert (p + [last])[1..] == p[1..] + [last];
      InstanceAppend(p[1..], last);
    }
  }

  /**
   The table is right for all words exactly when the pattern does not begin with two '#'. Legal keys
   never do; `#.#` against no words is the smallest failure.
   */
  lemma {:induction false} TableRightIff(pattern: seq<Str>)
    requires pattern != []
    ensures (forall words :: Cell(pattern, words, |pattern|, |words|) == Matches(pattern, words))
            <==> !StartsWithTwoHashes(pattern)
  {
    assert pattern[..|pattern|] == pattern;
    if StartsWithTwoHashes(pattern) {
      var words := Instance(pattern);
      InstanceMatches(pattern);
      if Cell(pattern, words, |pattern|, |words|) {
        CellNeedsOneMore(pattern, words, |pattern|, |words|);
      }
    } else {
      forall words ensures Cell(pattern, words, |pattern|, |words|) == Matches(pattern, words) {
        TableRight(pattern, words);
      }
    }
  }

  lemma {:induction false} WordBytes(s: Str, sep: Str, w: Str, b: byte)
    requires sep != [] && w in Fields(s, sep) && b in w
    ensures b in s
    decreases |s|
  {
    match FirstAt(s, sep)
    case None => OneField(s, sep);
    case Some(i) =>
      FieldsAfter(s, sep, i);
      if w != s[..i] {
        WordBytes(s[i + |sep|..], sep, w, b);
      }
  }

  /** A legal routing key is a legal binding key: it has no wildcards. */
  lemma {:induction false} RoutingKeysBind(key: Str)
    requires LegalRoutingKey(key)
    ensures LegalBindingKey(key)
  {
    var words := Words(key, DOT);
    forall w, b | w in words && b in w ensures b != 42 && b != 35 {
      NonEmptyMember(Fields(key, DOT), w);
      WordBytes(key, DOT, w, b);
    }
    forall i | 0 <= i < |words| ensures !IsWildcard(words[i]) {
      assert words[i] in words && 42 in STAR && 35 in HASH;
    }
  }

  lemma {:induction false} LegalNeverStartsWithTwoHashes(key: Str)
    requires LegalBindingKey(key)
    ensures !StartsWithTwoHashes(Words(key, DOT))
  {
  }
}
