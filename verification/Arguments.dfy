/** The text form `key=val&key=val&` in which queues and exchanges store their extra arguments. */
module Arguments {
  import opened Bytes
  import opened Splitting

  const EQUALS: Str := [61]
  const AMP: Str := [38]

  type Args = map<Str, Str>

  // ---- Writing ----

  function Entry(key: Str, val: Str): Str {
    key + EQUALS + val
  }

  /** The text for the keys in this order. */
  function Written(order: seq<Str>, args: Args): Str
    requires forall i :: 0 <= i < |order| ==> order[i] in args
  {
    if order == [] then [] else Entry(order[0], args[order[0]]) + AMP + Written(order[1..], args)
  }

  /** An order in which a hash map may be traversed: each key once. */
  ghost predicate Traversal(order: seq<Str>, args: Args) {
    && (forall i, j :: 0 <= i < j < |order| ==> order[i] != order[j])
    && (forall i :: 0 <= i < |order| ==> order[i] in args)
    && (forall k :: k in args ==> k in order)
  }

  lemma {:induction false} WrittenAppend(order: seq<Str>, key: Str, args: Args)
    requires key in args && forall i :: 0 <= i < |order| ==> order[i] in args
    ensures Written(order + [key], args) == Written(order, args) + Entry(key, args[key]) + AMP
  {
    if order == [] {
      assert [key][1..] == [];
    } else {
      assert (order + [key])[1..] == order[1..] + [key];
      WrittenAppend(order[1..], key, args);
    }
  }

  /** The traversal order of the map is arbitrary; the text is the one for that order. */
  method GetArgs(args: Args) returns (text: Str)
    ensures exists order: seq<Str> :: Traversal(order, args) && text == Written(order, args)
  {
    text := [];
    ghost var order: seq<Str> := [];
    var left := args.Keys;
    while left != {}
      invariant left <= args.Keys
      invariant forall i, j :: 0 <= i < j < |order| ==> order[i] != order[j]
      invariant forall i :: 0 <= i < |order| ==> order[i] in args && order[i] !in left
      invariant forall k :: k in args && k !in left ==> k in order
      invariant text == Written(order, args)
      decreases left
    {
      var key :| key in left;
      WrittenAppend(order, key, args);
      text := text + Entry(key, args[key]) + AMP;
      order := order + [key];
      left := left - {key};
    }
  }

  // ---- Reading ----

  /** `substr` at the first '='; without one both key and value are the whole piece, since `npos + 1` is 0. */
  function Parsed(piece: Str): (r: (Str, Str)) {
    match FirstAt(piece, EQUALS)
    case None => (piece, piece)
    case Some(i) => (piece[..i], piece[i + 1..])
  }

  function Stored(args: Args, pieces: seq<Str>): Args
    decreases |pieces|
  {
    if pieces == [] then args
    else Stored(args[Parsed(pieces[0]).0 := Parsed(pieces[0]).1], pieces[1..])
  }

  method SetArgs(args: Args, text: Str) returns (r: Args)
    ensures r == Stored(args, Words(text, AMP))
  {
    var _, pieces := Split(text, AMP, []);
    r := args;
    assert pieces == Words(text, AMP);
    for i := 0 to |pieces|
      invariant Stored(r, pieces[i..]) == Stored(args, pieces)
    {
      assert pieces[i..][1..] == pieces[i + 1..];
      r := r[Parsed(pieces[i]).0 := Parsed(pieces[i]).1];
    }
  }

  // ---- Round trip ----

  /** No key contains '=' or '&', no value contains '&'. */
  predicate Plain(args: Args) {
    forall k :: k in args ==> 61 !in k && 38 !in k && 38 !in args[k]
  }

  lemma {:induction false} FreeOfByte(s: Str, b: byte)
    ensures Free(s, [b]) <==> b !in s
  {
    if b in s {
      var i :| 0 <= i < |s| && s[i] == b;
      assert s[i..i + 1] == [b];
      assert OccursAt(s, [b], i);
    }
    if !Free(s, [b]) {
      var i :| 0 <= i <= |s| && OccursAt(s, [b], i);
      assert s[i] == s[i..i + 1][0] == b;
    }
  }

  /** A piece is cut at its first '='; one without a '=' is both key and value. */
  lemma {:induction false} ParsedAt(piece: Str)
    ensures var (key, val) := Parsed(piece);
            if 61 in piece then piece == key + ([61] + val) && 61 !in key else key == piece && val == piece
  {
    FreeOfByte(piece, 61);
    match FirstAt(piece, EQUALS)
    case None => OneField(piece, EQUALS);
    case Some(i) =>
      FieldsAfter(piece, EQUALS, i);
      FirstField(piece, EQUALS, i);
      FreeOfByte(piece[..i], 61);
      assert piece[i] == 61;
  }

  /** Of pieces with the same key the last one counts, and what no piece mentions stays. */
  lemma {:induction false} StoredLast(args: Args, pieces: seq<Str>, piece: Str)
    ensures Stored(args, pieces + [piece]) == Stored(args, pieces)[Parsed(piece).0 := Parsed(piece).1]
    ensures Stored(args, []) == args
    decreases |pieces|
  {
    if pieces == [] {
      assert [piece][1..] == [];
    } else {
      assert (pieces + [piece])[0] == pieces[0] && (pieces + [piece])[1..] == pieces[1..] + [piece];
      StoredLast(args[Parsed(pieces[0]).0 := Parsed(pieces[0]).1], pieces[1..], piece);
    }
  }

  /** One argument in its text form. */
  lemma {:induction false} WrittenOne(key: Str, val: Str)
    ensures Written([key], map[key := val]) == key + [61] + val + [38]
  {
    assert [key][1..] == [];
    assert Written([], map[key := val]) == [];
  }

  function Entries(order: seq<Str>, args: Args): (r: seq<Str>)
    requires forall i :: 0 <= i < |order| ==> order[i] in args
    ensures |r| == |order| && forall i :: 0 <= i < |r| ==> r[i] == Entry(order[i], args[order[i]])
  {
    if order == [] then [] else [Entry(order[0], args[order[0]])] + Entries(order[1..], args)
  }

  lemma {:induction false} WrittenIsJoin(order: seq<Str>, args: Args)
    requires forall i :: 0 <= i < |order| ==> order[i] in args
    ensures Written(order, args) == Join(Entries(order, args) + [[]], AMP)
  {
    if order != [] {
      WrittenIsJoin(order[1..], args);
      var fs := Entries(order, args) + [[]];
      assert fs[1..] == Entries(order[1..], args) + [[]];
      Assoc(Entry(order[0], args[order[0]]), AMP, Written(order[1..], args));
    }
  }

  lemma {:induction false} NonEmptyBefore(fs: seq<Str>)
    requires forall i :: 0 <= i < |fs| ==> fs[i] != []
    ensures NonEmpty(fs + [[]]) == fs
  {
    if fs != [] {
      assert (fs + [[]])[1..] == fs[1..] + [[]];
      NonEmptyBefore(fs[1..]);
      assert fs == [fs[0]] + fs[1..];
    } else {
      assert NonEmpty([[]]) == [] + NonEmpty([[]][1..]);
    }
  }

  /** The pieces read back are the entries written, in order. */
  lemma {:induction false} WordsOfWritten(order: seq<Str>, args: Args)
    requires Plain(args) && forall i :: 0 <= i < |order| ==> order[i] in args
    ensures Words(Written(order, args), AMP) == Entries(order, args)
  {
    var entries := Entries(order, args);
    var fs := entries + [[]];
    forall i | 0 <= i < |fs| ensures Free(fs[i], AMP) {
      FreeOfByte(fs[i], 38);
    }
    WrittenIsJoin(order, args);
    SplitUnique(fs, AMP);
    NonEmptyBefore(entries);
  }

  lemma {:induction false} ParsedEntry(key: Str, val: Str)
    requires 61 !in key
    ensures Parsed(Entry(key, val)) == (key, val)
  {
    forall j | 0 <= j < |key| ensures !OccursAt(key + EQUALS, EQUALS, j) {
      assert (key + EQUALS)[j..j + 1] == [key[j]];
    }
    FirstInJoin(key, EQUALS, val);
    Assoc(key, EQUALS, val);
    var e := Entry(key, val);
    assert e[..|key|] == key && e[|key| + 1..] == val;
  }

  lemma {:induction false} StoredEntries(order: seq<Str>, args: Args, base: Args)
    requires Plain(args) && forall i :: 0 <= i < |order| ==> order[i] in args
    ensures var r := Stored(base, Entries(order, args));
            && (forall k :: k in r <==> k in base || k in order)
            && (forall k :: k in order ==> r[k] == args[k])
            && (forall k :: k in base && k !in order ==> r[k] == base[k])
    decreases |order|
  {
    hide Entry, Parsed;
    if order != [] {
      var key := order[0];
      ParsedEntry(key, args[key]);
      assert Entries(order, args)[1..] == Entries(order[1..], args);
      StoredEntries(order[1..], args, base[key := args[key]]);
      assert order == [key] + order[1..];
    }
  }

  // ---- What reading can produce ----

  lemma {:induction false} ParsedPlain(piece: Str)
    requires 38 !in piece
    ensures 61 !in Parsed(piece).0 && 38 !in Parsed(piece).0 && 38 !in Parsed(piece).1
  {
    match FirstAt(piece, EQUALS)
    case None =>
      forall i | 0 <= i <= |piece| && OccursAt(piece, EQUALS, i) ensures false {
        FirstIsLeftmost(piece, EQUALS, i);
      }
      FreeOfByte(piece, 61);
    case Some(i) =>
      FirstField(piece, EQUALS, i);
      FreeOfByte(piece[..i], 61);
  }

  lemma {:induction false} StoredPlain(args: Args, pieces: seq<Str>)
    requires Plain(args) && forall i :: 0 <= i < |pieces| ==> 38 !in pieces[i]
    ensures Plain(Stored(args, pieces))
    decreases |pieces|
  {
    if pieces != [] {
      ParsedPlain(pieces[0]);
      StoredPlain(args[Parsed(pieces[0]).0 := Parsed(pieces[0]).1], pieces[1..]);
    }
  }

  lemma {:induction false} ReadPlain(text: Str)
    ensures Plain(Stored(map[], Words(text, AMP)))
  {
    var pieces := Words(text, AMP);
    SplitAgain(text, AMP);
    forall i | 0 <= i < |pieces| ensures 38 !in pieces[i] {
      FreeOfByte(pieces[i], 38);
    }
    StoredPlain(map[], pieces);
  }

  lemma {:induction false} PlainRoundTrip(order: seq<Str>, args: Args, r: Args)
    requires Traversal(order, args) && Plain(args) && r == Stored(map[], Words(Written(order, args), AMP))
    ensures r == args
  {
    WordsOfWritten(order, args);
    StoredEntries(order, args, map[]);
    TraversalKeys(order, args);
    SameArgs(r, args, order);
  }

  lemma {:induction false} SameArgs(r: Args, args: Args, order: seq<Str>)
    requires forall k :: k in r <==> k in order
    requires forall k :: k in args <==> k in order
    requires forall k :: k in order ==> r[k] == args[k]
    ensures r == args
  {
  }

  lemma {:induction false} TraversalKeys(order: seq<Str>, args: Args)
    requires Traversal(order, args)
    ensures forall k :: k in args <==> k in order
  {
  }

  /**
   Whatever the traversal order, the text read into an empty map gives the arguments back exactly when
   no key contains '=' or '&' and no value contains '&'.
   */
  lemma {:induction false} ArgumentsRoundTrip(order: seq<Str>, args: Args)
    requires Traversal(order, args)
    ensures Stored(map[], Words(Written(order, args), AMP)) == args <==> Plain(args)
  {
    ReadPlain(Written(order, args));
    if Plain(args) {
      PlainRoundTrip(order, args, Stored(map[], Words(Written(order, args), AMP)));
    }
  }
}
