/**
 * The NBT tag tree as the schematic builder hands it to the NBT writer:
 * `{type, value}` objects, with a compound's value an object from names to
 * tags. Only the tag types the builder uses are present. A compound keeps its
 * entries in insertion order, the order a JavaScript object lists its string
 * keys in.
 */
module Nbt {
  import opened Wrappers

  datatype TagType = ShortType | IntType | IntArrayType | ByteArrayType | ListType | CompoundType

  datatype Tag =
    | Short(short: int)
    | Int(int32: int)
    | IntArray(ints: seq<int>)
    | ByteArray(bytes: seq<int>)
    | List(elementType: TagType, items: seq<Tag>)
    | Compound(entries: seq<Entry>)

  /** One named member of a compound. */
  datatype Entry = Entry(name: string, tag: Tag)

  /** The root: a compound tag with a name. */
  datatype Document = Document(name: string, root: seq<Entry>)

  /** No two entries share a name, as in an object. */
  predicate UniqueNames(entries: seq<Entry>) {
    forall i, j :: 0 <= i < j < |entries| ==> entries[i].name != entries[j].name
  }

  predicate HasName(entries: seq<Entry>, name: string) {
    exists i :: 0 <= i < |entries| && entries[i].name == name
  }

  /** The tag stored under `name`, if any. */
  function Lookup(entries: seq<Entry>, name: string): (r: Option<Tag>)
    ensures r.Some? <==> HasName(entries, name)
    ensures r.Some? ==> Entry(name, r.value) in entries
    ensures UniqueNames(entries) ==>
      forall i :: 0 <= i < |entries| && entries[i].name == name ==> r == Some(entries[i].tag)
  {
    if |entries| == 0 then None
    else if entries[0].name == name then Some(entries[0].tag)
    else
      var r := Lookup(entries[1..], name);
      assert forall i :: 1 <= i < |entries| ==> entries[i] == entries[1..][i - 1];
      r
  }

  /**
   * `obj[name] = tag` on an object: an existing key keeps its place and
   * takes the new value; a new key goes at the end.
   */
  function Assign(entries: seq<Entry>, name: string, tag: Tag): (r: seq<Entry>)
    ensures HasName(entries, name) ==> |r| == |entries| && forall i :: 0 <= i < |r| ==> r[i].name == entries[i].name
    ensures !HasName(entries, name) ==> r == entries + [Entry(name, tag)]
  {
    if |entries| == 0 then [Entry(name, tag)]
    else if entries[0].name == name then [Entry(name, tag)] + entries[1..]
    else
      TailHasName(entries, name);
      [entries[0]] + Assign(entries[1..], name, tag)
  }

  /** A name other than the first entry's is in the list exactly when it is in the tail. */
  lemma TailHasName(entries: seq<Entry>, name: string)
    requires |entries| > 0 && entries[0].name != name
    ensures HasName(entries, name) <==> HasName(entries[1..], name)
  {
    if HasName(entries, name) {
      var i :| 0 <= i < |entries| && entries[i].name == name;
      assert entries[1..][i - 1].name == name;
    }
    if HasName(entries[1..], name) {
      var i :| 0 <= i < |entries| - 1 && entries[1..][i].name == name;
      assert entries[i + 1].name == name;
    }
  }

  /** After the assignment the name holds the new tag and every other name its old one. */
  lemma {:induction false} AssignLookup(entries: seq<Entry>, name: string, tag: Tag, other: string)
    ensures Lookup(Assign(entries, name, tag), name) == Some(tag)
    ensures other != name ==> Lookup(Assign(entries, name, tag), other) == Lookup(entries, other)
  {
    if |entries| > 0 && entries[0].name != name {
      AssignLookup(entries[1..], name, tag, other);
    }
  }

  /** The assignment keeps the names of an object distinct. */
  lemma AssignUnique(entries: seq<Entry>, name: string, tag: Tag)
    requires UniqueNames(entries)
    ensures UniqueNames(Assign(entries, name, tag))
  {
    var r := Assign(entries, name, tag);
    if !HasName(entries, name) {
      forall i, j | 0 <= i < j < |r| ensures r[i].name != r[j].name {
        if j == |entries| {
          assert entries[i].name != name;
        }
      }
    }
  }
}
