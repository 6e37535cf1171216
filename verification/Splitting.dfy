/** `SplitHelper::split` and, on top of it, the text form of the extra arguments of queues and exchanges. */
module Splitting {
  import opened Bytes

  // ---- Cutting a string at a separator ----

  /** Position of the leftmost occurrence of `sep`. */
  function FirstAt(s: Str, sep: Str): (r: Option<nat>)
    requires sep != []
    ensures r.Some? ==> r.value + |sep| <= |s| && s[r.value..r.value + |sep|] == sep
  {
    if |s| < |sep| then None
    else if s[..|sep|] == sep then Some(0)
    else
      match FirstAt(s[1..], sep)
      case None => None
      case Some(i) => assert s[1..][i..i + |sep|] == s[i + 1..i + 1 + |sep|]; Some(i + 1)
  }

  ghost predicate OccursAt(s: Str, sep: Str, i: nat) {
    i + |sep| <= |s| && s[i..i + |sep|] == sep
  }

  lemma {:induction false} FirstIsLeftmost(s: Str, sep: Str, i: nat)
    requires sep != [] && OccursAt(s, sep, i)
    ensures FirstAt(s, sep).Some? && FirstAt(s, sep).value <= i
  {
    if s[..|sep|] != sep {
      assert s[1..][i - 1..i - 1 + |sep|] == s[i..i + |sep|];
      FirstIsLeftmost(s[1..], sep, i - 1);
    }
  }

  /** The textbook split: every piece between separators, empty ones included. */
  function Fields(s: Str, sep: Str): (r: seq<Str>)
    requires sep != []
    ensures r != []
    decreases |s|
  {
    match FirstAt(s, sep)
    case None => [s]
    case Some(i) => [s[..i]] + Fields(s[i + |sep|..], sep)
  }

  function NonEmpty(fs: seq<Str>): seq<Str> {
    if fs == [] then []
    else (if fs[0] == [] then [] else [fs[0]]) + NonEmpty(fs[1..])
  }

  lemma {:induction false} NonEmptyMember(fs: seq<Str>, w: Str)
    ensures w in NonEmpty(fs) <==> w in fs && w != []
  {
    if fs != [] {
      NonEmptyMember(fs[1..], w);
    }
  }

  /** What `split` produces: the pieces that are not empty, in order. */
  function Words(s: Str, sep: Str): seq<Str>
    requires sep != []
  {
    NonEmpty(Fields(s, sep))
  }

  function Join(fs: seq<Str>, sep: Str): Str {
    if fs == [] then [] else if |fs| == 1 then fs[0] else fs[0] + (sep + Join(fs[1..], sep))
  }

  // ---- The loop ----

  lemma {:induction false} WordsEmpty(sep: Str)
    requires sep != []
    ensures Words([], sep) == []
  {
    assert Fields([], sep) == [[]];
    assert NonEmpty([[]]) == [];
  }

  lemma {:induction false} WordsNext(s: Str, sep: Str)
    requires sep != [] && s != []
    ensures match FirstAt(s, sep)
            case None => Words(s, sep) == [s]
            case Some(i) =>
              Words(s, sep) == (if i == 0 then [] else [s[..i]]) + Words(s[i + |sep|..], sep)
  {
    match FirstAt(s, sep)
    case None =>
      assert [s][1..] == [];
      assert NonEmpty([s]) == [s] + NonEmpty([]);
    case Some(i) =>
      var rest := Fields(s[i + |sep|..], sep);
      assert ([s[..i]] + rest)[1..] == rest;
  }

  /** Appends the pieces to `before`; an empty separator yields nothing and a count of zero. */
  method Split(s: Str, sep: Str, before: seq<Str>) returns (count: nat, result: seq<Str>)
    ensures sep == [] ==> count == 0 && result == before
    ensures sep != [] ==> result == before + Words(s, sep) && count == |result|
  {
    result := before;
    if sep == [] {
      return 0, result;
    }
    var idx := 0;
    assert s[0..] == s;
    while idx < |s|
      invariant idx <= |s|
      invariant before + Words(s, sep) == result + Words(s[idx..], sep)
    {
      var pos := FirstAt(s[idx..], sep);
      WordsNext(s[idx..], sep);
      if pos == None {
        result := result + [s[idx..]];
        return |result|, result;
      }
      ghost var more := Words(s[idx..][pos.value + |sep|..], sep);
      assert s[idx..][pos.value + |sep|..] == s[idx + pos.value + |sep|..];
      if pos.value == 0 {
        assert [] + more == more;
        idx := idx + |sep|;
      } else {
        assert s[idx..][..pos.value] == s[idx..idx + pos.value];
        Assoc(result, [s[idx..idx + pos.value]], more);
        result := result + [s[idx..idx + pos.value]];
        idx := idx + pos.value + |sep|;
      }
    }
    assert s[idx..] == [];
    WordsEmpty(sep);
    assert result + [] == result;
    return |result|, result;
  }

  // ---- What the pieces are ----

  ghost predicate Free(s: Str, sep: Str) {
    forall i :: 0 <= i <= |s| ==> !OccursAt(s, sep, i)
  }

  /** No occurrence of `sep` starts inside `s` once `sep` follows it. */
  ghost predicate Clean(s: Str, sep: Str) {
    forall i :: 0 <= i < |s| ==> !OccursAt(s + sep, sep, i)
  }

  /** Pieces that a split can have produced: all free of the separator, and cut at its leftmost occurrences. */
  ghost predicate Cut(fs: seq<Str>, sep: Str) {
    && (forall i :: 0 <= i < |fs| ==> Free(fs[i], sep))
    && (forall i :: 0 <= i < |fs| - 1 ==> Clean(fs[i], sep))
  }

  lemma {:induction false} PrefixOccurrence(a: Str, b: Str, sep: Str, i: nat)
    requires OccursAt(a, sep, i)
    ensures OccursAt(a + b, sep, i)
  {
    assert (a + b)[i..i + |sep|] == a[i..i + |sep|];
  }

  lemma {:induction false} FirstNotLater(s: Str, front: Str, back: Str, sep: Str, j: nat)
    requires sep != [] && s == front + back && OccursAt(front, sep, j)
    ensures FirstAt(s, sep).Some? && FirstAt(s, sep).value <= j && j < |front|
  {
    PrefixOccurrence(front, back, sep, j);
    FirstIsLeftmost(s, sep, j);
  }

  lemma {:induction false} FirstField(s: Str, sep: Str, i: nat)
    requires sep != [] && FirstAt(s, sep) == Some(i)
    ensures Free(s[..i], sep) && Clean(s[..i], sep)
  {
    hide FirstAt, OccursAt;
    var front, back := s[..i] + sep, s[i + |sep|..];
    assert s == s[..i] + s[i..] && s == front + back;
    forall j | 0 <= j <= i && OccursAt(s[..i], sep, j) ensures false {
      FirstNotLater(s, s[..i], s[i..], sep, j);
    }
    forall j | 0 <= j < i && OccursAt(front, sep, j) ensures false {
      FirstNotLater(s, front, back, sep, j);
    }
  }

  lemma {:induction false} CutFirst(f: Str, fs: seq<Str>, sep: Str)
    requires Cut(fs, sep) && Free(f, sep) && Clean(f, sep)
    ensures Cut([f] + fs, sep)
  {
    var all := [f] + fs;
    forall j | 0 <= j < |all| ensures Free(all[j], sep) {
      assert j > 0 ==> all[j] == fs[j - 1];
    }
    forall j | 0 <= j < |all| - 1 ensures Clean(all[j], sep) {
      assert j > 0 ==> all[j] == fs[j - 1];
    }
  }

  lemma {:induction false} JoinFirst(f: Str, fs: seq<Str>, sep: Str)
    requires fs != []
    ensures Join([f] + fs, sep) == f + (sep + Join(fs, sep))
  {
    assert ([f] + fs)[1..] == fs;
  }

  lemma {:induction false} FieldsAfter(s: Str, sep: Str, i: nat)
    requires sep != [] && FirstAt(s, sep) == Some(i)
    ensures i + |sep| <= |s| && s == s[..i] + (sep + s[i + |sep|..])
    ensures Fields(s, sep) == [s[..i]] + Fields(s[i + |sep|..], sep)
  {
  }

  lemma {:induction false} OneField(s: Str, sep: Str)
    requires sep != [] && FirstAt(s, sep) == None
    ensures Fields(s, sep) == [s] && Cut([s], sep) && Join([s], sep) == s
  {
    forall i | 0 <= i <= |s| && OccursAt(s, sep, i) ensures false {
      FirstIsLeftmost(s, sep, i);
    }
  }

  /** Every piece is free of the separator, and joining all pieces gives the string back. */
  lemma {:induction false} FieldsCutAndJoin(s: Str, sep: Str)
    requires sep != []
    ensures Cut(Fields(s, sep), sep) && Join(Fields(s, sep), sep) == s
    decreases |s|
  {
    hide *;
    match FirstAt(s, sep)
    case None => OneField(s, sep);
    case Some(i) =>
      var rest := s[i + |sep|..];
      FieldsAfter(s, sep, i);
      FieldsCutAndJoin(rest, sep);
      FirstField(s, sep, i);
      CutFirst(s[..i], Fields(rest, sep), sep);
      JoinFirst(s[..i], Fields(rest, sep), sep);
  }

  lemma {:induction false} OccursEarlier(w: Str, sep: Str, rest: Str, i: nat)
    requires i < |w| && OccursAt(w + (sep + rest), sep, i)
    ensures OccursAt(w + sep, sep, i)
  {
    assert (w + (sep + rest))[i..i + |sep|] == (w + sep)[i..i + |sep|];
  }

  lemma {:induction false} FirstInJoin(w: Str, sep: Str, rest: Str)
    requires sep != [] && Clean(w, sep)
    ensures FirstAt(w + (sep + rest), sep) == Some(|w|)
  {
    hide FirstAt;
    var s := w + (sep + rest);
    assert s[|w|..|w| + |sep|] == sep;
    FirstIsLeftmost(s, sep, |w|);
    var i := FirstAt(s, sep).value;
    if i < |w| {
      OccursEarlier(w, sep, rest, i);
      assert false;
    }
  }

  lemma {:induction false} FieldsFirst(f: Str, sep: Str, rest: Str)
    requires sep != [] && Clean(f, sep)
    ensures Fields(f + (sep + rest), sep) == [f] + Fields(rest, sep)
  {
    FirstInJoin(f, sep, rest);
    Parts(f, sep, rest);
  }

  /** Pieces cut at leftmost occurrences are what splitting their join gives, so the split is unique. */
  lemma {:induction false} FieldsOfJoin(fs: seq<Str>, sep: Str)
    requires sep != [] && fs != [] && Cut(fs, sep)
    ensures Fields(Join(fs, sep), sep) == fs
    decreases |fs|
  {
    if |fs| == 1 {
      assert FirstAt(fs[0], sep).Some? ==> OccursAt(fs[0], sep, FirstAt(fs[0], sep).value);
    } else {
      var rest := fs[1..];
      assert forall i :: 0 <= i < |rest| ==> rest[i] == fs[i + 1];
      FieldsOfJoin(rest, sep);
      FieldsFirst(fs[0], sep, Join(rest, sep));
      assert fs == [fs[0]] + rest;
    }
  }

  /** For a one-character separator, as the broker always uses: only one list of separator-free pieces joins to `s`. */
  lemma {:induction false} SplitUnique(fs: seq<Str>, sep: Str)
    requires |sep| == 1 && fs != [] && forall i :: 0 <= i < |fs| ==> Free(fs[i], sep)
    ensures Fields(Join(fs, sep), sep) == fs
  {
    forall i, j | 0 <= i < |fs| && 0 <= j < |fs[i]| ensures !OccursAt(fs[i] + sep, sep, j) {
      assert (fs[i] + sep)[j..j + 1] == fs[i][j..j + 1];
      assert !OccursAt(fs[i], sep, j);
    }
    FieldsOfJoin(fs, sep);
  }

  lemma {:induction false} NonEmptyMembers(fs: seq<Str>, sep: Str)
    requires Cut(fs, sep)
    ensures Cut(NonEmpty(fs), sep)
    ensures forall i :: 0 <= i < |NonEmpty(fs)| ==> NonEmpty(fs)[i] != []
    ensures NonEmpty(fs) != [] ==> fs != []
  {
    if fs != [] {
      var rest, ws := fs[1..], NonEmpty(fs);
      assert forall i :: 0 <= i < |rest| ==> rest[i] == fs[i + 1];
      NonEmptyMembers(rest, sep);
      if fs[0] != [] && NonEmpty(rest) != [] {
        assert |fs| >= 2;
      }
      assert ws == (if fs[0] == [] then [] else [fs[0]]) + NonEmpty(rest);
    }
  }

  lemma {:induction false} NonEmptySame(fs: seq<Str>)
    requires forall i :: 0 <= i < |fs| ==> fs[i] != []
    ensures NonEmpty(fs) == fs
  {
    if fs != [] {
      NonEmptySame(fs[1..]);
      assert fs == [fs[0]] + fs[1..];
    }
  }

  /** The result of `split`: nonempty pieces without the separator; joined and split again they stay the same. */
  lemma {:induction false} SplitAgain(s: Str, sep: Str)
    requires sep != []
    ensures var ws := Words(s, sep);
            && (forall i :: 0 <= i < |ws| ==> ws[i] != [] && Free(ws[i], sep))
            && Words(Join(ws, sep), sep) == ws
  {
    var ws := Words(s, sep);
    FieldsCutAndJoin(s, sep);
    NonEmptyMembers(Fields(s, sep), sep);
    if ws == [] {
      WordsEmpty(sep);
    } else {
      FieldsOfJoin(ws, sep);
      NonEmptySame(ws);
    }
  }
}
