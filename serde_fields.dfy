/**
 How serde's derived `Serialize` writes a struct whose every field carries
 `#[serde(skip_serializing_if = "Option::is_none")]`: the fields are visited
 in declaration order, a `None` field is skipped, and a `Some(v)` field
 becomes one member whose key is the field's (possibly renamed) name.
 */
module SerdeFields {
  import opened Wrappers
  import opened JsonValue

  /** One declared field: its serialised name and, when present, its encoded value. */
  datatype Field = Field(name: string, value: Option<Json>)

  /** The serialised names of the declared fields, in declaration order. */
  function Names(fs: seq<Field>): (ns: seq<string>)
    ensures |ns| == |fs|
    ensures forall i :: 0 <= i < |fs| ==> ns[i] == fs[i].name
  {
    if fs == [] then [] else [fs[0].name] + Names(fs[1..])
  }

  /** What one field contributes to the object: nothing, or one member. */
  function Emit(f: Field): seq<Member>
  {
    match f.value
    case None => []
    case Some(v) => [(f.name, v)]
  }

  /** The object members the derived serialiser emits. */
  function SkipNone(fs: seq<Field>): (ms: seq<Member>)
    ensures |ms| <= |fs|
  {
    if fs == [] then [] else Emit(fs[0]) + SkipNone(fs[1..])
  }

  /** Emitting two field lists one after the other is emitting their concatenation. */
  lemma {:induction false} SkipNoneAppend(a: seq<Field>, b: seq<Field>)
    ensures SkipNone(a + b) == SkipNone(a) + SkipNone(b)
  {
    if a == [] {
      assert a + b == b;
    } else {
      assert (a + b)[0] == a[0] && (a + b)[1..] == a[1..] + b;
      SkipNoneAppend(a[1..], b);
      calc {
        SkipNone(a + b);
        Emit(a[0]) + SkipNone(a[1..] + b);
        Emit(a[0]) + (SkipNone(a[1..]) + SkipNone(b));
      }
    }
  }

  /** When every field is present, each one becomes a member, in declaration order. */
  lemma {:induction false} SkipNoneAllPresent(fs: seq<Field>, ms: seq<Member>)
    requires |fs| == |ms|
    requires forall i :: 0 <= i < |fs| ==> fs[i] == Field(ms[i].0, Some(ms[i].1))
    ensures SkipNone(fs) == ms
  {
    if fs != [] {
      SkipNoneAllPresent(fs[1..], ms[1..]);
      assert ms == [ms[0]] + ms[1..];
    }
  }

  /** When no field is present, nothing is emitted. */
  lemma {:induction false} SkipNoneAllAbsent(fs: seq<Field>)
    requires forall i :: 0 <= i < |fs| ==> fs[i].value.None?
    ensures SkipNone(fs) == []
  {
    if fs != [] {
      SkipNoneAllAbsent(fs[1..]);
    }
  }

  /** The emitted keys keep declaration order, and only declared names appear. */
  lemma {:induction false} SkipNoneKeys(fs: seq<Field>)
    ensures IsSubseq(Keys(SkipNone(fs)), Names(fs))
  {
    if fs != [] {
      SkipNoneKeys(fs[1..]);
      var ks, rest := Keys(SkipNone(fs)), Keys(SkipNone(fs[1..]));
      var ns := Names(fs);
      assert ns[1..] == Names(fs[1..]);
      match fs[0].value
      case None =>
        if ks != [] {
          assert ks == rest;
        }
      case Some(v) =>
        assert ks[0] == ns[0];
        assert ks[1..] == rest;
    }
  }

  /** A name that is not declared never appears in the object. */
  lemma SkipNoneUndeclared(fs: seq<Field>, k: string)
    requires k !in Names(fs)
    ensures Lookup(SkipNone(fs), k) == None
  {
    SkipNoneKeys(fs);
    if k in Keys(SkipNone(fs)) {
      SubseqMembers(Keys(SkipNone(fs)), Names(fs), k);
    }
  }

  /**
   When the declared names are distinct, reading field `i`'s name back from
   the emitted object finds exactly that field's value: the encoded value
   of a present field, and nothing for an absent one.
   */
  lemma {:induction false} SkipNoneLookup(fs: seq<Field>, i: nat)
    requires i < |fs|
    requires NoDup(Names(fs))
    ensures Lookup(SkipNone(fs), fs[i].name) == fs[i].value
  {
    var ns, k := Names(fs), fs[i].name;
    assert Names(fs[1..]) == ns[1..];
    NoDupTail(ns);
    if i == 0 {
      SkipNoneUndeclared(fs[1..], k);
    } else {
      assert fs[1..][i - 1] == fs[i];
      assert fs[0].name == ns[0] != ns[i] == k;
      SkipNoneLookup(fs[1..], i - 1);
    }
    SkipNoneHead(fs, k);
  }

  /** Looking a key up in the emitted members: the first field's member, then the rest. */
  lemma SkipNoneHead(fs: seq<Field>, k: string)
    requires fs != []
    ensures Lookup(SkipNone(fs), k)
         == if fs[0].value.Some? && fs[0].name == k then fs[0].value else Lookup(SkipNone(fs[1..]), k)
  {
    var rest := SkipNone(fs[1..]);
    assert SkipNone(fs) == Emit(fs[0]) + rest;
    match fs[0].value
    case None =>
      assert SkipNone(fs) == rest;
    case Some(v) =>
      LookupCons((fs[0].name, v), rest, k);
  }
}
