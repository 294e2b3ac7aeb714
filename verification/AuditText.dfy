/** What the text hashed for an audit event says, to any reader of JSON. */
module AuditText {
  import opened Common
  import opened Json
  import opened AuditChain
  import JsonRead

  /** The field of this name holds this. */
  predicate Says(f: map<Text, Tree>, name: Text, t: Tree) { name in f && f[name] == t }

  function TextOrNull(t: Option<Text>): Tree { if t.Some? then StrTree(t.value) else NullTree }

  function FieldsOrNull(o: Option<Members>): Tree { if o.Some? then ObjTree(Fields(o.value)) else NullTree }

  /** The fields of an audit event under the names of `computeHash`. */
  predicate Tells(f: map<Text, Tree>, e: Event) {
    && Says(f, Ascii("id"), StrTree(e.id))
    && Says(f, Ascii("ts"), StrTree(e.ts))
    && Says(f, Ascii("actor"), ObjTree(Fields(e.actor)))
    && Says(f, Ascii("action"), StrTree(e.action))
    && Says(f, Ascii("subjectRef"), TextOrNull(e.subjectRef))
    && Says(f, Ascii("rpId"), TextOrNull(e.rpId))
    && Says(f, Ascii("deviceBindingId"), TextOrNull(e.deviceBindingId))
    && Says(f, Ascii("assurance"), TextOrNull(e.assurance))
    && Says(f, Ascii("matchResult"), FieldsOrNull(e.matchResult))
    && Says(f, Ascii("sdidTxnRef"), TextOrNull(e.sdidTxnRef))
    && Says(f, Ascii("result"), StrTree(e.result))
    && Says(f, Ascii("context"), FieldsOrNull(e.context))
  }

  lemma {:induction false} ZipSays(keys: seq<Text>, values: seq<Value>, i: nat)
    requires |keys| == |values| && Distinct(keys) && i < |keys|
    requires forall j :: 0 <= j < |values| ==> !values[j].Undefined?
    ensures Says(Fields(Zip(keys, values)), keys[i], Meaning(values[i]))
  {
    hide Meaning;
    if i > 0 {
      ZipSays(keys[1..], values[1..], i - 1);
      assert keys[1..][i - 1] == keys[i] != keys[0];
    }
  }

  lemma {:induction false} ZipNames(keys: seq<Text>, values: seq<Value>)
    requires |keys| == |values| && forall j :: 0 <= j < |values| ==> !values[j].Undefined?
    ensures Fields(Zip(keys, values)).Keys == (set k | k in keys)
  {
    hide Meaning;
    if keys != [] {
      ZipNames(keys[1..], values[1..]);
      assert keys == [keys[0]] + keys[1..];
    }
  }

  lemma {:induction false} ZipReadable(keys: seq<Text>, values: seq<Value>)
    requires |keys| == |values| && forall j :: 0 <= j < |values| ==> !values[j].Undefined?
    ensures JsonRead.ReadableMembers(Zip(keys, values)) <==>
            forall j :: 0 <= j < |values| ==> JsonRead.Readable(values[j])
  {
    hide JsonRead.Readable;
    if keys != [] {
      ZipReadable(keys[1..], values[1..]);
      assert forall j :: 0 < j < |values| ==> values[j] == values[1..][j - 1];
    }
  }

  /** No array of the event holds an undefined element beside others. */
  predicate ReadableEvent(e: Event) {
    && JsonRead.ReadableMembers(e.actor) && (e.matchResult.Some? ==> JsonRead.ReadableMembers(e.matchResult.value))
    && (e.context.Some? ==> JsonRead.ReadableMembers(e.context.value))
  }

  lemma ColumnsReadable(e: Event)
    ensures (forall i :: 0 <= i < |KEYS| ==> JsonRead.Readable(Columns(e)[i])) <==> ReadableEvent(e)
  {
    hide JsonRead.ReadableMembers;
    var vs := Columns(e);
    assert JsonRead.Readable(vs[2]) <==> JsonRead.ReadableMembers(e.actor);
    assert JsonRead.Readable(vs[8]) <==> (e.matchResult.Some? ==> JsonRead.ReadableMembers(e.matchResult.value));
    assert JsonRead.Readable(vs[11]) <==> (e.context.Some? ==> JsonRead.ReadableMembers(e.context.value));
  }

  lemma ColumnsTell(e: Event, f: map<Text, Tree>)
    requires forall i :: 0 <= i < |KEYS| ==> Says(f, KEYS[i], Meaning(Columns(e)[i]))
    ensures Tells(f, e)
  {
    hide Says, Fields;
    var vs := Columns(e);
    assert Says(f, KEYS[0], Meaning(vs[0])) && Says(f, KEYS[1], Meaning(vs[1])) && Says(f, KEYS[2], Meaning(vs[2]));
    assert Says(f, KEYS[3], Meaning(vs[3])) && Says(f, KEYS[4], Meaning(vs[4])) && Says(f, KEYS[5], Meaning(vs[5]));
    assert Says(f, KEYS[6], Meaning(vs[6])) && Says(f, KEYS[7], Meaning(vs[7])) && Says(f, KEYS[8], Meaning(vs[8]));
    assert Says(f, KEYS[9], Meaning(vs[9])) && Says(f, KEYS[10], Meaning(vs[10])) && Says(f, KEYS[11], Meaning(vs[11]));
  }

  /**
   * The text hashed for an event is JSON exactly if no array of the event holds an undefined element beside others. Any
   * reader then finds one object in it, with the twelve named fields and no other, each holding its own column.
   */
  lemma HashedTextReads(e: Event)
    requires ValidEvent(e)
    ensures var r := JsonRead.Read(Print(Canonical(e)));
      && (r.Some? <==> ReadableEvent(e))
      && (r.Some? ==> r.value.ObjTree? && |r.value.members.Keys| == 12 && Tells(r.value.members, e))
  {
    KeysDistinct();
    ColumnsValid(e);
    hide Print, Columns, Valid, Fields, JsonRead.Read, JsonRead.Readable, Tells;
    ZipValid(KEYS, Columns(e));
    CanonicalValid(e);
    JsonRead.PrintReadsBack(Canonical(e));
    ZipReadable(KEYS, Columns(e));
    ColumnsReadable(e);
    CanonicalMeans(e);
    ZipNames(KEYS, Columns(e));
    NamesCount(KEYS);
    forall i | 0 <= i < |KEYS| ensures Says(Fields(Zip(KEYS, Columns(e))), KEYS[i], Meaning(Columns(e)[i])) {
      ZipSays(KEYS, Columns(e), i);
    }
    ColumnsTell(e, Fields(Zip(KEYS, Columns(e))));
  }

  lemma CanonicalMeans(e: Event)
    ensures JsonRead.Readable(Canonical(e)) <==> JsonRead.ReadableMembers(Zip(KEYS, Columns(e)))
    ensures Meaning(Canonical(e)) == ObjTree(Fields(Zip(KEYS, Columns(e))))
  {
  }

  lemma {:induction false} NamesCount(keys: seq<Text>)
    requires Distinct(keys)
    ensures |set k | k in keys| == |keys|
  {
    if keys != [] {
      NamesCount(keys[1..]);
      assert (set k | k in keys) == {keys[0]} + (set k | k in keys[1..]);
    }
  }
}
