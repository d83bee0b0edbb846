/**
 The marble ledger: one flat keyspace that holds marble records and the entries of a `color~name` index.
 */
module MarbleLedger {
  import opened Wrappers
  import opened CompositeKeys

  const INDEX_NAME := "color~name"

  datatype Marble = Marble(docType: string, name: string, color: string, size: int, owner: string)

  /** A stored value: the JSON of a marble, or the single zero byte of an index entry, which no JSON decoder accepts. */
  datatype Value = Record(marble: Marble) | IndexEntry

  type Ledger = map<string, Value>

  function IndexKey(color: string, name: string): string {
    CompositeKey([INDEX_NAME, color, name])
  }

  function CreateIndexKey(color: string, name: string): (r: Option<string>)
    ensures r == if ValidComponent(color) && ValidComponent(name) then Some(IndexKey(color, name)) else None
  {
    assert ValidComponent(INDEX_NAME);
    assert [INDEX_NAME] + [color, name] == [INDEX_NAME, color, name];
    assert [color, name][0] == color && [color, name][1] == name;
    CreateCompositeKey(INDEX_NAME, [color, name])
  }

  predicate IsMarble(l: Ledger, key: string) {
    key in l && l[key].Record?
  }

  /** The record under `key` carries the key as its name and is indexed under its color. */
  ghost predicate WellIndexed(l: Ledger, key: string) {
    IsMarble(l, key) ==>
      var m := l[key].marble;
      && m.name == key
      && ValidComponent(m.name) && ValidComponent(m.color)
      && IndexKey(m.color, m.name) in l && l[IndexKey(m.color, m.name)].IndexEntry?
  }

  /** An index entry stands for a stored marble of that color and name. */
  ghost predicate Backed(l: Ledger, key: string) {
    key in l && l[key].IndexEntry? ==>
      exists name :: IsMarble(l, name) && key == IndexKey(l[name].marble.color, name)
  }

  /** The index agrees with the records. */
  ghost predicate Agrees(l: Ledger) {
    forall key :: WellIndexed(l, key) && Backed(l, key)
  }

  /** The index entries are exactly the (color, name) pairs of the stored marbles. */
  lemma IndexIsExact(l: Ledger, color: string, name: string)
    requires Agrees(l) && ValidComponent(color) && ValidComponent(name)
    ensures IndexKey(color, name) in l <==> IsMarble(l, name) && l[name].marble.color == color
    ensures IndexKey(color, name) in l ==> l[IndexKey(color, name)].IndexEntry?
  {
    var key := IndexKey(color, name);
    KeysHaveNul(color, name);
    assert WellIndexed(l, key) && Backed(l, key) && WellIndexed(l, name);
    if key in l {
      var owner :| IsMarble(l, owner) && key == IndexKey(l[owner].marble.color, owner);
      assert WellIndexed(l, owner);
      IndexKeysDiffer(color, name, l[owner].marble.color, owner);
    }
  }

  lemma KeysHaveNul(color: string, name: string)
    ensures NUL in IndexKey(color, name)
  {
    assert IndexKey(color, name)[0] == NUL;
  }

  lemma IndexKeysDiffer(color: string, name: string, color': string, name': string)
    requires ValidComponent(color) && ValidComponent(name) && ValidComponent(color') && ValidComponent(name')
    ensures IndexKey(color, name) == IndexKey(color', name') ==> color == color' && name == name'
  {
    if IndexKey(color, name) == IndexKey(color', name') {
      assert ValidComponent(INDEX_NAME);
      var a, b := [INDEX_NAME, color, name], [INDEX_NAME, color', name'];
      KeysAreInjective(a, b);
      assert a[1] == b[1] && a[2] == b[2];
    }
  }

  // ---------------------------------------------------------------------------------------------
  // What the transactions write
  // ---------------------------------------------------------------------------------------------

  function Inserted(l: Ledger, m: Marble): Ledger {
    l[m.name := Record(m)][IndexKey(m.color, m.name) := IndexEntry]
  }

  function Removed(l: Ledger, name: string, m: Marble): Ledger {
    l - {name} - {IndexKey(m.color, m.name)}
  }

  /** Every marble of the color has the new owner; nothing else differs. */
  function WithNewOwner(l: Ledger, color: string, owner: string): Ledger {
    map k | k in l :: if l[k].Record? && l[k].marble.color == color then Record(l[k].marble.(owner := owner)) else l[k]
  }

  lemma InsertKeepsAgreement(l: Ledger, m: Marble)
    requires Agrees(l) && m.name !in l && ValidComponent(m.name) && ValidComponent(m.color)
    ensures Agrees(Inserted(l, m))
  {
    var l', entry := Inserted(l, m), IndexKey(m.color, m.name);
    KeysHaveNul(m.color, m.name);
    IndexIsExact(l, m.color, m.name);
    assert IsMarble(l', m.name);
    forall key ensures WellIndexed(l', key) && Backed(l', key) {
      assert WellIndexed(l, key) && Backed(l, key);
      if key in l && l[key].IndexEntry? {
        var name :| IsMarble(l, name) && key == IndexKey(l[name].marble.color, name);
        assert WellIndexed(l, name) && IsMarble(l', name);
      }
    }
  }

  lemma RemoveKeepsAgreement(l: Ledger, name: string)
    requires Agrees(l) && IsMarble(l, name)
    ensures Agrees(Removed(l, name, l[name].marble))
  {
    var m := l[name].marble;
    var l' := Removed(l, name, m);
    assert WellIndexed(l, name);
    forall key ensures WellIndexed(l', key) && Backed(l', key) {
      assert WellIndexed(l, key) && Backed(l, key);
      if key in l' && l[key].IndexEntry? {
        var other :| IsMarble(l, other) && key == IndexKey(l[other].marble.color, other);
        assert WellIndexed(l, other) && other != name;
        KeysHaveNul(m.color, m.name);
        assert IsMarble(l', other);
      }
      if IsMarble(l', key) {
        IndexKeysDiffer(m.color, m.name, l[key].marble.color, key);
        KeysHaveNul(l[key].marble.color, key);
      }
    }
  }

  lemma ChangeOwnersKeepsAgreement(l: Ledger, l': Ledger)
    requires Agrees(l) && l'.Keys == l.Keys
    requires forall k | k in l ::
      if l[k].Record? then l'[k].Record? && l'[k].marble.(owner := l[k].marble.owner) == l[k].marble
      else l'[k] == l[k]
    ensures Agrees(l')
  {
    forall key ensures WellIndexed(l', key) && Backed(l', key) {
      assert WellIndexed(l, key) && Backed(l, key);
      if key in l && l[key].IndexEntry? {
        var name :| IsMarble(l, name) && key == IndexKey(l[name].marble.color, name);
        assert IsMarble(l', name) && l'[name].marble.color == l[name].marble.color;
      }
    }
  }
}
