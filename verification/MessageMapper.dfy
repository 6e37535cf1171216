/** The objects that keep one queue's data file: `FileHelper`, `Message` and `MessageMapper`. */
module MessageMapper {
  import opened Bytes
  import opened PayloadCodec
  import opened Framing
  import opened MessageLog

  /** A file by name: absent, or present with its bytes. */
  class File {
    var content: Option<seq<byte>>

    constructor (content: Option<seq<byte>>)
      ensures this.content == content
    {
      this.content := content;
    }

    function Size(): nat
      reads this
    {
      |Content(content)|
    }

    /** Fails on an absent file and on a short read. */
    method Read(offset: nat, len: nat) returns (r: Option<seq<byte>>)
      ensures r == if content.Some? && offset + len <= |content.value|
                   then Some(content.value[offset..offset + len]) else None
    {
      match content
      case None => return None;
      case Some(bytes) =>
        if offset + len <= |bytes| {
          return Some(bytes[offset..offset + len]);
        }
        return None;
    }

    method Write(bytes: seq<byte>, offset: nat) returns (ok: bool)
      modifies this
      ensures ok == old(content).Some?
      ensures content == if ok then Some(Written(old(content).value, offset, bytes)) else None
    {
      match content
      case None => return false;
      case Some(file) =>
        content := Some(Written(file, offset, bytes));
        return true;
    }

    /** An existing file is kept as it is. */
    method Create()
      modifies this
      ensures content == Some(Content(old(content)))
    {
      content := Some(Content(content));
    }

    method Remove() returns (ok: bool)
      modifies this
      ensures ok == old(content).Some? && content == None
    {
      ok := content.Some?;
      content := None;
    }

    method RenameTo(target: File)
      requires target != this && content.Some?
      modifies this, target
      ensures target.content == old(content) && content == None
    {
      target.content := content;
      content := None;
    }
  }

  class Message {
    var payload: Payload
    var offset: nat
    var length: nat

    constructor (payload: Payload)
      ensures View() == Msg(payload, 0, 0)
    {
      this.payload, offset, length := payload, 0, 0;
    }

    function View(): Msg
      reads this
    {
      Msg(payload, offset, length)
    }
  }

  function Views(ms: seq<Message>): (v: seq<Msg>)
    reads ms
    ensures |v| == |ms| && forall i :: 0 <= i < |ms| ==> v[i] == ms[i].View()
  {
    seq(|ms|, i requires 0 <= i < |ms| reads ms => ms[i].View())
  }

  ghost predicate Distinct(ms: seq<Message>) {
    forall i, j :: 0 <= i < j < |ms| ==> ms[i] != ms[j]
  }

  // ---- The scan of `load`, seen from position `offset` with the messages of `done` collected ----

  ghost predicate Reached(file: seq<byte>, offset: nat, done: seq<Payload>) {
    && offset <= |file|
    && Load(file) == Loaded(Load(file[offset..]).ok, done + Load(file[offset..]).msgs)
  }

  /** A whole record at the head of what is left of the file. */
  lemma {:induction false} LoadRecord(s: seq<byte>, length: nat)
    requires |s| >= HEADER && length == FromLittleEndian(s[..HEADER]) && HEADER + length <= |s|
    ensures var p, rest := Parse(s[HEADER..HEADER + length]).value, Load(s[HEADER + length..]);
            Load(s) == if p.valid == INVALID then rest else Loaded(rest.ok, [p] + rest.msgs)
  {
    var bodies := Unframe(s[HEADER + length..]).bodies;
    assert Unframe(s).bodies == [s[HEADER..HEADER + length]] + bodies;
    assert ([s[HEADER..HEADER + length]] + bodies)[1..] == bodies;
  }

  /** The record at `offset` has this body and ends at `next`. */
  ghost predicate RecordAt(file: seq<byte>, offset: nat, next: nat, body: Str) {
    && offset + HEADER <= next <= |file|
    && next == offset + HEADER + FromLittleEndian(file[offset..offset + HEADER])
    && body == file[offset + HEADER..next]
  }

  function Collecting(done: seq<Payload>, p: Payload): seq<Payload> {
    if p.valid == INVALID then done else done + [p]
  }

  lemma {:induction false} ScanRecord(file: seq<byte>, offset: nat, done: seq<Payload>, next: nat, body: Str,
                                      p: Payload)
    requires Reached(file, offset, done) && RecordAt(file, offset, next, body) && p == Parse(body).value
    ensures Reached(file, next, Collecting(done, p))
  {
    var s, length := file[offset..], |body|;
    assert s[..HEADER] == file[offset..offset + HEADER];
    assert s[HEADER..HEADER + length] == body;
    assert s[HEADER + length..] == file[next..];
    LoadRecord(s, length);
    Assoc(done, [p], Load(file[next..]).msgs);
  }

  lemma {:induction false} ScanShort(file: seq<byte>, offset: nat, done: seq<Payload>)
    requires Reached(file, offset, done) && offset < |file|
    requires offset + HEADER <= |file| ==>
               offset + HEADER + FromLittleEndian(file[offset..offset + HEADER]) > |file|
    ensures Load(file) == Loaded(false, done)
  {
    var s := file[offset..];
    if |s| >= HEADER {
      assert s[..HEADER] == file[offset..offset + HEADER];
    }
    assert done + [] == done;
  }

  lemma {:induction false} ScanStart(file: seq<byte>)
    ensures Reached(file, 0, [])
  {
    assert file[0..] == file;
    assert [] + Load(file).msgs == Load(file).msgs;
  }

  lemma {:induction false} ScanEnd(file: seq<byte>, done: seq<Payload>)
    requires Reached(file, |file|, done)
    ensures Load(file) == Loaded(true, done)
  {
    assert file[|file|..] == [];
    assert done + [] == done;
  }

  class MessageMapper {
    const data: File
    const tmp: File

    ghost predicate Valid() {
      data != tmp
    }

    ghost function Files(): Disk
      reads data, tmp
    {
      Disk(data.content, tmp.content)
    }

    /** The data file is created empty unless it is already there. */
    constructor (data: File, tmp: File)
      requires data != tmp
      modifies data
      ensures Valid() && this.data == data && this.tmp == tmp
      ensures data.content == Some(Content(old(data.content)))
    {
      this.data, this.tmp := data, tmp;
      new;
      data.Create();
    }

    /** Appends the message to a file and records the place in the message. */
    method InsertInto(file: File, m: Message) returns (ok: bool)
      modifies file, m
      ensures ok == old(file.content).Some?
      ensures m.payload == old(m.payload)
      ensures !ok ==> file.content == None && m.View() == old(m.View())
      ensures ok ==> file.content == Some(old(file.content).value + Frame(Encode(m.payload)))
                     && m.offset == Low32(|old(file.content).value| + HEADER)
                     && m.length == Low32(|Encode(m.payload)|)
    {
      hide Encode, LittleEndian;
      var body := SerializeAsString(m.payload);
      var offset, length := file.Size(), |body|;
      var header := LittleEndian(length, HEADER);
      ok := file.Write(header, offset);
      if !ok {
        return false;
      }
      ok := file.Write(body, offset + HEADER);
      m.offset := Low32(offset + HEADER);
      m.length := Low32(length);
      WrittenTwiceAtEnd(old(file.content).value, header, body);
    }

    method Insert(m: Message) returns (ok: bool)
      requires Valid()
      modifies data, m
      ensures var r := Append(old(Files()), m.payload);
              && ok == r.ok && Files() == r.disk
              && m.payload == old(m.payload)
              && m.View() == if ok then r.msg else old(m.View())
    {
      ok := InsertInto(data, m);
    }

    /** Flags the message invalid in memory, then over its record in the file. */
    method Remove(m: Message) returns (ok: bool)
      requires Valid()
      modifies data, m
      ensures Files() == Clear(old(Files()), old(m.View()))
      ensures m.payload == Dead(old(m.payload)) && m.offset == old(m.offset) && m.length == old(m.length)
      ensures ok == (old(data.content).Some? && |Encode(m.payload)| == m.length)
    {
      m.payload := m.payload.(valid := INVALID);
      var body := SerializeAsString(m.payload);
      if |body| != m.length {
        return false;
      }
      ok := data.Write(body, m.offset);
    }

    /** Reads the body of the record at `offset`; `None` when a read comes up short. */
    method ReadBody(offset: nat, ghost done: seq<Payload>) returns (body: Option<Str>, next: nat)
      requires offset < data.Size() && Reached(Content(data.content), offset, done)
      ensures body == None ==> Load(Content(data.content)) == Loaded(false, done)
      ensures body.Some? ==> RecordAt(Content(data.content), offset, next, body.value)
    {
      hide Load, Reached, LittleEndian;
      ghost var file := Content(data.content);
      var header := data.Read(offset, HEADER);
      if header == None {
        ScanShort(file, offset, done);
        return None, offset;
      }
      var length := FromLittleEndian(header.value);
      body := data.Read(offset + HEADER, length);
      if body == None {
        ScanShort(file, offset, done);
      }
      next := offset + HEADER + length;
    }

    /** Reads and decodes the record at `offset`. */
    method ReadRecord(offset: nat, ghost done: seq<Payload>) returns (p: Option<Payload>, next: nat)
      requires offset < data.Size() && Reached(Content(data.content), offset, done)
      ensures p == None ==> Load(Content(data.content)) == Loaded(false, done)
      ensures p.Some? ==> offset < next && Reached(Content(data.content), next, Collecting(done, p.value))
    {
      hide Load, Reached, Parse;
      var body;
      body, next := ReadBody(offset, done);
      if body == None {
        return None, next;
      }
      var parsed := ParseFromString(body.value);
      ScanRecord(Content(data.content), offset, done, next, body.value, parsed.value);
      p := Some(parsed.value);
    }

    /** One iteration of the scan; a message flagged invalid is read and passed over. */
    method LoadOne(ms: seq<Message>, offset: nat, ghost done: seq<Payload>)
      returns (found: bool, r: seq<Message>, next: nat, ghost more: seq<Payload>)
      requires offset < data.Size() && Reached(Content(data.content), offset, done) && NewMessages(ms, done)
      ensures !found ==> r == ms && Load(Content(data.content)) == Loaded(false, done)
      ensures found ==> offset < next && Reached(Content(data.content), next, more) && NewMessages(r, more)
      ensures ms <= r && forall i :: |ms| <= i < |r| ==> fresh(r[i])
    {
      hide Reached, Load, Parse;
      var p;
      p, next := ReadRecord(offset, done);
      if p == None {
        return false, ms, offset, done;
      }
      found := true;
      if p.value.valid == INVALID {
        r, more := ms, done;
      } else {
        more := done + [p.value];
        r := PushNew(ms, done, p.value);
      }
    }

    /** Scans the data file; the messages are new objects that do not know their place yet. */
    method LoadMessages() returns (ok: bool, result: seq<Message>)
      requires Valid()
      ensures var loaded := Load(Content(data.content));
              ok == loaded.ok && Views(result) == Unplaced(loaded.msgs)
      ensures Distinct(result) && forall i :: 0 <= i < |result| ==> fresh(result[i])
    {
      ghost var file := Content(data.content);
      ghost var done: seq<Payload> := [];
      var offset := 0;
      result := [];
      ok := true;
      ScanStart(file);
      while ok && offset < data.Size()
        invariant if ok then Reached(file, offset, done) else Load(file) == Loaded(false, done)
        invariant NewMessages(result, done)
        invariant forall i :: 0 <= i < |result| ==> fresh(result[i])
        decreases ok, |file| - offset
      {
        var next;
        ghost var more;
        ok, result, next, more := LoadOne(result, offset, done);
        if ok {
          offset, done := next, more;
        }
      }
      if ok {
        ScanEnd(file, done);
      }
      NewViews(result, done);
    }

    method AppendOne(m: Message, ghost base: seq<byte>, ghost msgs: seq<Payload>, ghost i: nat)
      requires i < |msgs| && m.View() == Msg(msgs[i], 0, 0)
      requires tmp.content == Some(base + Layout(msgs[..i]))
      modifies tmp, m
      ensures tmp.content == Some(base + Layout(msgs[..i + 1]))
      ensures m.View() == Placed(|base|, msgs)[i]
    {
      hide Encode, Frame, Layout, Placed;
      ghost var file := tmp.content.value;
      FileStep(base, msgs, i, file);
      PlacedStep(|base|, msgs, i, |file|);
      var _ := InsertInto(tmp, m);
    }

    /** Appends the messages one after the other to the temporary file. */
    method AppendAll(ms: seq<Message>, ghost msgs: seq<Payload>)
      requires Valid() && tmp.content.Some? && NewMessages(ms, msgs)
      modifies tmp, ms
      ensures tmp.content == Some(old(tmp.content).value + Layout(msgs))
      ensures Views(ms) == Placed(|old(tmp.content).value|, msgs)
    {
      hide Layout, Placed;
      ghost var base := tmp.content.value;
      ghost var placed := Placed(|base|, msgs);
      AppendedNone(base, msgs);
      for i := 0 to |ms|
        invariant tmp.content == Some(base + Layout(msgs[..i]))
        invariant forall j :: 0 <= j < i ==> ms[j].View() == placed[j]
        invariant forall j :: i <= j < |ms| ==> ms[j].View() == Msg(msgs[j], 0, 0)
      {
        AppendOne(ms[i], base, msgs, i);
      }
      assert msgs[..|ms|] == msgs;
      ViewsAre(ms, placed);
    }

    /** Compaction; the messages returned are new objects that carry the places `Collect` gives them. */
    method Gc() returns (result: seq<Message>)
      requires Valid()
      modifies data, tmp
      ensures Files() == Collect(old(Files())).disk && Views(result) == Collect(old(Files())).msgs
      ensures Distinct(result) && forall i :: 0 <= i < |result| ==> fresh(result[i])
    {
      hide Load, Layout, Placed, Unplaced, Message.View;
      ghost var loaded := Load(Content(data.content));
      var ok;
      ok, result := LoadMessages();
      if !ok {
        return;
      }
      tmp.Create();
      UnplacedNew(result, loaded.msgs);
      AppendAll(result, loaded.msgs);
      var removed := data.Remove();
      if removed {
        tmp.RenameTo(data);
      }
    }
  }

  lemma {:induction false} UnplacedNew(ms: seq<Message>, msgs: seq<Payload>)
    requires Views(ms) == Unplaced(msgs) && Distinct(ms)
    ensures NewMessages(ms, msgs)
  {
    forall i | 0 <= i < |ms| ensures ms[i].View() == Msg(msgs[i], 0, 0) {
      assert Views(ms)[i] == ms[i].View();
    }
  }

  lemma {:induction false} AppendedNone(base: seq<byte>, msgs: seq<Payload>)
    ensures base + Layout(msgs[..0]) == base
  {
    assert base + [] == base;
  }

  /** Distinct messages with these payloads that do not know their place. */
  ghost predicate NewMessages(ms: seq<Message>, done: seq<Payload>)
    reads ms
  {
    && |ms| == |done| && Distinct(ms)
    && forall i :: 0 <= i < |ms| ==> ms[i].View() == Msg(done[i], 0, 0)
  }

  method PushNew(ms: seq<Message>, ghost done: seq<Payload>, p: Payload) returns (r: seq<Message>)
    requires NewMessages(ms, done)
    ensures NewMessages(r, done + [p])
    ensures |r| == |ms| + 1 && ms <= r && fresh(r[|ms|])
  {
    var m := new Message(p);
    r := ms + [m];
  }

  lemma {:induction false} ViewsAre(ms: seq<Message>, views: seq<Msg>)
    requires |ms| == |views| && forall i :: 0 <= i < |ms| ==> ms[i].View() == views[i]
    ensures Views(ms) == views
  {
  }

  lemma {:induction false} NewViews(ms: seq<Message>, done: seq<Payload>)
    requires NewMessages(ms, done)
    ensures Views(ms) == Unplaced(done)
  {
  }
}
