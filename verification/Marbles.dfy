/**
 The marbles chaincode: handlers that read and write the ledger through a stub, each in one atomic
 transaction whose writes are discarded when the handler returns an error.
 */
module Marbles {
  import opened Wrappers
  import opened CompositeKeys
  import opened MarbleLedger

  /** The library functions on strings: lower casing, and reading a decimal number. */
  datatype Strings = Strings(lower: string -> string, atoi: string -> Option<int>)

  function Overlay(l: Ledger, writes: map<string, Option<Value>>): Ledger {
    map k | k in l.Keys + writes.Keys && (k in writes ==> writes[k].Some?) ::
      if k in writes then writes[k].value else l[k]
  }

  /** What a handler sees of the ledger.  Reads may or may not see the handler's own pending writes. */
  class Stub {
    const committed: Ledger
    const seesPending: bool
    var writes: map<string, Option<Value>>

    constructor (l: Ledger, seesPending: bool)
      ensures committed == l && this.seesPending == seesPending && writes == map[]
    {
      committed, this.seesPending, writes := l, seesPending, map[];
    }

    function View(): Ledger
      reads this
    {
      Overlay(committed, writes)
    }

    function Seen(): Ledger
      reads this
    {
      if seesPending then View() else committed
    }

    method GetState(key: string) returns (v: Option<Value>)
      ensures v == if key in Seen() then Some(Seen()[key]) else None
    {
      v := if key in Seen() then Some(Seen()[key]) else None;
    }

    method PutState(key: string, v: Value)
      modifies this
      ensures writes == old(writes)[key := Some(v)] && View() == old(View())[key := v]
    {
      writes := writes[key := Some(v)];
    }

    method DelState(key: string)
      modifies this
      ensures writes == old(writes)[key := None] && View() == old(View()) - {key}
    {
      writes := writes[key := None];
    }

    /** The committed keys below a partial index key, each once, in some order. */
    method GetStateByPartialCompositeKey(color: string) returns (keys: Option<seq<string>>)
      ensures keys.Some? <==> ValidComponent(color)
      ensures keys.Some? ==>
        && (forall k :: k in keys.value <==> k in committed && CompositeKey([INDEX_NAME, color]) <= k)
        && (forall i, j | 0 <= i < j < |keys.value| :: keys.value[i] != keys.value[j])
    {
      if !ValidComponent(color) {
        return None;
      }
      var todo := set k | k in committed && CompositeKey([INDEX_NAME, color]) <= k;
      var found: seq<string> := [];
      while todo != {}
        invariant forall k :: k in committed && CompositeKey([INDEX_NAME, color]) <= k <==> k in todo || k in found
        invariant forall k :: k in found ==> k !in todo
        invariant forall i, j | 0 <= i < j < |found| :: found[i] != found[j]
        decreases todo
      {
        var k :| k in todo;
        found, todo := found + [k], todo - {k};
      }
      keys := Some(found);
    }
  }

  lemma NothingPending(stub: Stub)
    requires stub.writes == map[]
    ensures stub.View() == stub.committed == stub.Seen()
  {
  }

  // ---------------------------------------------------------------------------------------------
  // Handlers
  // ---------------------------------------------------------------------------------------------

  predicate InitAllowed(str: Strings, l: Ledger, args: seq<string>) {
    && |args| == 4
    && (forall i | 0 <= i < 4 :: args[i] != "")
    && str.atoi(args[2]).Some?
    && args[0] !in l
    && ValidComponent(str.lower(args[1])) && ValidComponent(args[0])
  }

  function NewMarble(str: Strings, args: seq<string>): Marble
    requires |args| == 4 && str.atoi(args[2]).Some?
  {
    Marble("marble", args[0], str.lower(args[1]), str.atoi(args[2]).value, str.lower(args[3]))
  }

  method InitMarble(stub: Stub, str: Strings, args: seq<string>) returns (ok: bool)
    requires stub.writes == map[]
    modifies stub
    ensures ok <==> InitAllowed(str, stub.committed, args)
    ensures ok ==> stub.View() == Inserted(stub.committed, NewMarble(str, args))
  {
    NothingPending(stub);
    if |args| != 4 {
      return false;
    }
    if |args[0]| <= 0 || |args[1]| <= 0 || |args[2]| <= 0 || |args[3]| <= 0 {
      return false;
    }
    var marbleName := args[0];
    var color := str.lower(args[1]);
    var owner := str.lower(args[3]);
    var size := str.atoi(args[2]);
    if size.None? {
      return false;
    }
    var marbleAsBytes := stub.GetState(marbleName);
    if marbleAsBytes.Some? {
      return false;
    }
    var m := Marble("marble", marbleName, color, size.value, owner);
    stub.PutState(marbleName, Record(m));
    var colorNameIndexKey := CreateIndexKey(m.color, m.name);
    if colorNameIndexKey.None? {
      return false;
    }
    stub.PutState(colorNameIndexKey.value, IndexEntry);
    return true;
  }

  predicate DeleteAllowed(l: Ledger, args: seq<string>) {
    && |args| == 1 && IsMarble(l, args[0])
    && ValidComponent(l[args[0]].marble.color) && ValidComponent(l[args[0]].marble.name)
  }

  method Delete(stub: Stub, args: seq<string>) returns (ok: bool)
    requires stub.writes == map[]
    modifies stub
    ensures ok <==> DeleteAllowed(stub.committed, args)
    ensures ok ==> stub.View() == Removed(stub.committed, args[0], stub.committed[args[0]].marble)
  {
    NothingPending(stub);
    if |args| != 1 {
      return false;
    }
    var marbleName := args[0];
    var valAsBytes := stub.GetState(marbleName);
    if valAsBytes.None? {
      return false;
    }
    if !valAsBytes.value.Record? {
      return false;
    }
    var m := valAsBytes.value.marble;
    stub.DelState(marbleName);
    var colorNameIndexKey := CreateIndexKey(m.color, m.name);
    if colorNameIndexKey.None? {
      return false;
    }
    stub.DelState(colorNameIndexKey.value);
    return true;
  }

  /** Also called by the transfer by color, in the middle of a transaction. */
  method TransferMarble(stub: Stub, str: Strings, args: seq<string>) returns (ok: bool)
    modifies stub
    ensures ok <==> |args| >= 2 && IsMarble(old(stub.Seen()), args[0])
    ensures ok ==>
      var m := old(stub.Seen())[args[0]].marble.(owner := str.lower(args[1]));
      && stub.writes == old(stub.writes)[args[0] := Some(Record(m))]
      && stub.View() == old(stub.View())[args[0] := Record(m)]
    ensures !ok ==> stub.writes == old(stub.writes)
  {
    if |args| < 2 {
      return false;
    }
    var marbleName := args[0];
    var newOwner := str.lower(args[1]);
    var marbleAsBytes := stub.GetState(marbleName);
    if marbleAsBytes.None? {
      return false;
    }
    if !marbleAsBytes.value.Record? {
      return false;
    }
    var marbleToTransfer := marbleAsBytes.value.marble;
    marbleToTransfer := marbleToTransfer.(owner := newOwner);
    stub.PutState(marbleName, Record(marbleToTransfer));
    return true;
  }

  function OfColor(l: Ledger, color: string): set<string> {
    set k | k in l && l[k].Record? && l[k].marble.color == color
  }

  /** The writes of the loop once it transferred `names`. */
  ghost predicate Transferred(l: Ledger, writes: map<string, Option<Value>>, names: set<string>, owner: string) {
    && writes.Keys == names
    && forall k | k in names :: IsMarble(l, k) && writes[k] == Some(Record(l[k].marble.(owner := owner)))
  }

  /** An index entry below the partial key of a color names a marble of that color. */
  lemma EntryNamesMarble(l: Ledger, color: string, key: string) returns (name: string)
    requires Agrees(l) && ValidComponent(color)
    requires key in l && CompositeKey([INDEX_NAME, color]) <= key
    ensures key == IndexKey(color, name) && name in OfColor(l, color)
    ensures SplitCompositeKey(key) == [INDEX_NAME, color, name]
  {
    assert WellIndexed(l, key) && Backed(l, key);
    assert CompositeKey([INDEX_NAME, color])[0] == NUL;
    assert NUL in key;
    name :| IsMarble(l, name) && key == IndexKey(l[name].marble.color, name);
    assert WellIndexed(l, name) && ValidComponent(INDEX_NAME);
    PrefixIsPartialKey(INDEX_NAME, color, l[name].marble.color, name);
    SplitUndoesCreate([INDEX_NAME, color, name]);
  }

  lemma MarbleHasEntry(l: Ledger, color: string, name: string)
    requires Agrees(l) && name in OfColor(l, color)
    ensures IndexKey(color, name) in l && CompositeKey([INDEX_NAME, color]) <= IndexKey(color, name)
  {
    assert WellIndexed(l, name) && ValidComponent(INDEX_NAME);
    PrefixIsPartialKey(INDEX_NAME, color, color, name);
  }

  /** The marbles that the first n index entries name. */
  ghost function Named(keys: seq<string>, color: string, l: Ledger): set<string> {
    set name | name in OfColor(l, color) && IndexKey(color, name) in keys
  }

  lemma NamedGrows(keys: seq<string>, key: string, color: string, l: Ledger, name: string)
    requires Agrees(l) && ValidComponent(color)
    requires key !in keys && name in OfColor(l, color) && key == IndexKey(color, name)
    ensures name !in Named(keys, color, l)
    ensures Named(keys + [key], color, l) == Named(keys, color, l) + {name}
  {
    assert WellIndexed(l, name);
    forall other | other in OfColor(l, color) && IndexKey(color, other) == key ensures other == name {
      assert WellIndexed(l, other);
      IndexKeysDiffer(color, name, color, other);
    }
  }

  lemma TransferredGrows(l: Ledger, writes: map<string, Option<Value>>, names: set<string>, name: string, owner: string)
    requires Transferred(l, writes, names, owner) && name !in names && IsMarble(l, name)
    ensures var writes' := writes[name := Some(Record(l[name].marble.(owner := owner)))];
      Transferred(l, writes', names + {name}, owner) && |writes'| == |writes| + 1
  {
  }

  lemma AllTransferred(l: Ledger, writes: map<string, Option<Value>>, color: string, owner: string)
    requires Transferred(l, writes, OfColor(l, color), owner)
    ensures Overlay(l, writes) == WithNewOwner(l, color, owner)
    ensures |writes| == |OfColor(l, color)|
  {
    assert |writes| == |writes.Keys|;
  }

  lemma AllNamed(keys: seq<string>, color: string, l: Ledger)
    requires Agrees(l)
    requires forall k :: k in keys <==> k in l && CompositeKey([INDEX_NAME, color]) <= k
    ensures Named(keys, color, l) == OfColor(l, color)
  {
    forall name | name in OfColor(l, color) ensures IndexKey(color, name) in keys {
      MarbleHasEntry(l, color, name);
    }
  }

  lemma UnwrittenIsSeen(stub: Stub, name: string)
    requires name in stub.committed && name !in stub.writes
    ensures name in stub.Seen() && stub.Seen()[name] == stub.committed[name]
  {
  }

  /**
   The transfer by color refines "set the owner of every marble of this color": it never hits a missing
   marble, changes exactly those owners, and reports their number, whichever reads the ledger serves.
   */
  method TransferMarblesBasedOnColor(stub: Stub, str: Strings, args: seq<string>) returns (ok: bool, count: nat)
    requires stub.writes == map[] && Agrees(stub.committed)
    modifies stub
    ensures ok <==> |args| >= 2 && ValidComponent(args[0])
    ensures ok ==> stub.View() == WithNewOwner(stub.committed, args[0], str.lower(str.lower(args[1])))
    ensures ok ==> count == |OfColor(stub.committed, args[0])|
  {
    if |args| < 2 {
      return false, 0;
    }
    var color := args[0];
    var newOwner := str.lower(args[1]);
    var results := stub.GetStateByPartialCompositeKey(color);
    if results.None? {
      return false, 0;
    }
    assert forall i | 0 <= i < |results.value| :: results.value[i] in results.value;
    ok, count := TransferEach(stub, str, color, newOwner, results.value);
    AllNamed(results.value, color, stub.committed);
    AllTransferred(stub.committed, stub.writes, color, str.lower(newOwner));
  }

  /** One round of the loop: the marble that the index entry names gets the new owner. */
  method TransferNamed(stub: Stub, str: Strings, newOwner: string, key: string, ghost name: string,
                       ghost done: set<string>)
    returns (ok: bool)
    requires Transferred(stub.committed, stub.writes, done, str.lower(newOwner))
    requires IsMarble(stub.committed, name) && name !in done
    requires |SplitCompositeKey(key)| == 3 && SplitCompositeKey(key)[2] == name
    modifies stub
    ensures ok && |stub.writes| == old(|stub.writes|) + 1
    ensures Transferred(stub.committed, stub.writes, done + {name}, str.lower(newOwner))
  {
    UnwrittenIsSeen(stub, name);
    TransferredGrows(stub.committed, stub.writes, done, name, str.lower(newOwner));
    var parts := SplitCompositeKey(key);
    ok := TransferMarble(stub, str, [parts[2], newOwner]);
  }

  /** A result set of the index query: committed entries below the partial key, each once. */
  ghost predicate ResultSet(l: Ledger, color: string, keys: seq<string>) {
    && (forall i | 0 <= i < |keys| :: keys[i] in l && CompositeKey([INDEX_NAME, color]) <= keys[i])
    && (forall i, j | 0 <= i < j < |keys| :: keys[i] != keys[j])
  }

  lemma NextEntry(l: Ledger, color: string, keys: seq<string>, i: nat) returns (name: string)
    requires Agrees(l) && ValidComponent(color) && ResultSet(l, color, keys) && i < |keys|
    ensures IsMarble(l, name) && name !in Named(keys[..i], color, l)
    ensures SplitCompositeKey(keys[i]) == [INDEX_NAME, color, name]
    ensures Named(keys[..i + 1], color, l) == Named(keys[..i], color, l) + {name}
  {
    name := EntryNamesMarble(l, color, keys[i]);
    assert keys[..i + 1] == keys[..i] + [keys[i]];
    NamedGrows(keys[..i], keys[i], color, l, name);
  }

  /** The loop over the result set. */
  method TransferEach(stub: Stub, str: Strings, color: string, newOwner: string, keys: seq<string>)
    returns (ok: bool, count: nat)
    requires stub.writes == map[] && Agrees(stub.committed) && ValidComponent(color)
    requires ResultSet(stub.committed, color, keys)
    modifies stub
    ensures ok && count == |stub.writes|
    ensures Transferred(stub.committed, stub.writes, Named(keys, color, stub.committed), str.lower(newOwner))
  {
    assert keys[..|keys|] == keys;
    ghost var done := Named(keys[..0], color, stub.committed);
    count := 0;
    for i := 0 to |keys|
      invariant done == Named(keys[..i], color, stub.committed)
      invariant Transferred(stub.committed, stub.writes, done, str.lower(newOwner))
      invariant count == i == |stub.writes|
    {
      ghost var name := NextEntry(stub.committed, color, keys, i);
      ok := TransferNamed(stub, str, newOwner, keys[i], name, done);
      if !ok {
        return;
      }
      done := done + {name};
      count := count + 1;
    }
    ok := true;
  }

  // ---------------------------------------------------------------------------------------------
  // Transactions and runs
  // ---------------------------------------------------------------------------------------------

  datatype Tx =
    | Init(args: seq<string>)
    | Drop(args: seq<string>)
    | Transfer(args: seq<string>)
    | TransferByColor(args: seq<string>)

  /** The ledger after a transaction; an error leaves it alone. */
  function Execute(str: Strings, l: Ledger, tx: Tx): Ledger {
    match tx
    case Init(args) => if InitAllowed(str, l, args) then Inserted(l, NewMarble(str, args)) else l
    case Drop(args) => if DeleteAllowed(l, args) then Removed(l, args[0], l[args[0]].marble) else l
    case Transfer(args) =>
      if |args| >= 2 && IsMarble(l, args[0]) then
        l[args[0] := Record(l[args[0]].marble.(owner := str.lower(args[1])))]
      else l
    case TransferByColor(args) =>
      if |args| >= 2 && ValidComponent(args[0]) then WithNewOwner(l, args[0], str.lower(str.lower(args[1]))) else l
  }

  method Submit(str: Strings, l: Ledger, tx: Tx, seesPending: bool) returns (l': Ledger)
    requires Agrees(l)
    ensures l' == Execute(str, l, tx)
  {
    var stub := new Stub(l, seesPending);
    NothingPending(stub);
    var ok;
    match tx {
      case Init(args) => ok := InitMarble(stub, str, args);
      case Drop(args) => ok := Delete(stub, args);
      case Transfer(args) => ok := TransferMarble(stub, str, args);
      case TransferByColor(args) =>
        var count;
        ok, count := TransferMarblesBasedOnColor(stub, str, args);
    }
    l' := if ok then stub.View() else l;
  }

  lemma ExecuteKeepsAgreement(str: Strings, l: Ledger, tx: Tx)
    requires Agrees(l)
    ensures Agrees(Execute(str, l, tx))
  {
    match tx
    case Init(args) =>
      if InitAllowed(str, l, args) {
        InsertKeepsAgreement(l, NewMarble(str, args));
      }
    case Drop(args) =>
      if DeleteAllowed(l, args) {
        RemoveKeepsAgreement(l, args[0]);
      }
    case _ =>
      ChangeOwnersKeepsAgreement(l, Execute(str, l, tx));
  }

  function RunAll(str: Strings, l: Ledger, txs: seq<Tx>): Ledger
    decreases |txs|
  {
    if txs == [] then l else RunAll(str, Execute(str, l, txs[0]), txs[1..])
  }

  /** In every state reachable from an agreeing one the index entries are exactly the pairs of the stored marbles. */
  lemma {:induction false} IndexAlwaysAgrees(str: Strings, l: Ledger, txs: seq<Tx>)
    requires Agrees(l)
    ensures Agrees(RunAll(str, l, txs))
    decreases |txs|
  {
    if txs != [] {
      ExecuteKeepsAgreement(str, l, txs[0]);
      IndexAlwaysAgrees(str, Execute(str, l, txs[0]), txs[1..]);
    }
  }

  /** In particular after any sequence of transactions on the empty ledger. */
  lemma IndexAgreesFromStart(str: Strings, txs: seq<Tx>)
    ensures Agrees(RunAll(str, map[], txs))
  {
    EmptyLedgerAgrees();
    IndexAlwaysAgrees(str, map[], txs);
  }

  lemma EmptyLedgerAgrees()
    ensures Agrees(map[])
  {
  }

  // ---------------------------------------------------------------------------------------------
  // What a later read returns, in terms of the arguments
  // ---------------------------------------------------------------------------------------------

  /** The arguments are refused: wrong in number, empty, no size, a name in use, or text that no key can hold. */
  predicate InitRefused(str: Strings, l: Ledger, args: seq<string>) {
    || |args| != 4
    || args[0] == "" || args[1] == "" || args[2] == "" || args[3] == ""
    || str.atoi(args[2]).None?
    || args[0] in l
    || NUL in args[0] || MAX_RUNE in args[0] || NUL in str.lower(args[1]) || MAX_RUNE in str.lower(args[1])
  }

  /** A created marble is read back as it was requested; nothing but it and its index entry is new. */
  lemma InitIsRead(str: Strings, l: Ledger, args: seq<string>, key: string)
    requires Agrees(l)
    ensures var l' := Execute(str, l, Init(args));
      if InitRefused(str, l, args) then l' == l
      else
        var entry := CompositeKey(["color~name", str.lower(args[1]), args[0]]);
        && entry !in l && entry in l' && l'[entry].IndexEntry?
        && args[0] in l' && l'[args[0]]
           == Record(Marble("marble", args[0], str.lower(args[1]), str.atoi(args[2]).value, str.lower(args[3])))
        && (key != args[0] && key != entry ==> (key in l' <==> key in l) && (key in l ==> l'[key] == l[key]))
  {
    if !InitRefused(str, l, args) {
      assert forall i | 0 <= i < 4 :: args[i] != "";
      IndexIsExact(l, str.lower(args[1]), args[0]);
      KeysHaveNul(str.lower(args[1]), args[0]);
    }
  }

  /** A deleted marble and its index entry are gone, and its name is free again; nothing else changes. */
  lemma DropIsRead(str: Strings, l: Ledger, args: seq<string>, key: string)
    requires Agrees(l)
    ensures var l' := Execute(str, l, Drop(args));
      if |args| != 1 || !IsMarble(l, args[0]) then l' == l
      else
        var entry := CompositeKey(["color~name", l[args[0]].marble.color, args[0]]);
        && entry in l && entry !in l' && args[0] !in l'
        && (key != args[0] && key != entry ==> (key in l' <==> key in l) && (key in l ==> l'[key] == l[key]))
  {
    if |args| == 1 && IsMarble(l, args[0]) {
      assert WellIndexed(l, args[0]);
    }
  }

  /** A transfer changes the owner of the named marble to the lower-cased text, and nothing else. */
  lemma TransferIsRead(str: Strings, l: Ledger, args: seq<string>, key: string)
    ensures var l' := Execute(str, l, Transfer(args));
      && l'.Keys == l.Keys
      && (key in l ==>
            if |args| >= 2 && key == args[0] && l[key].Record? then
              l'[key].Record? && l'[key].marble == l[key].marble.(owner := str.lower(args[1]))
            else l'[key] == l[key])
  {
  }

  /** A transfer by color changes the owners of exactly the marbles of that color. */
  lemma TransferByColorIsRead(str: Strings, l: Ledger, args: seq<string>, key: string)
    ensures var l' := Execute(str, l, TransferByColor(args));
      && l'.Keys == l.Keys
      && (key in l ==>
            if |args| >= 2 && NUL !in args[0] && MAX_RUNE !in args[0]
               && l[key].Record? && l[key].marble.color == args[0]
            then l'[key].Record? && l'[key].marble == l[key].marble.(owner := str.lower(str.lower(args[1])))
            else l'[key] == l[key])
  {
  }

  /** As long as a marble is stored, no transaction changes anything of it but its owner. */
  lemma OnlyOwnersChange(str: Strings, l: Ledger, tx: Tx, name: string)
    requires Agrees(l) && IsMarble(l, name) && name in Execute(str, l, tx)
    ensures var l' := Execute(str, l, tx);
      l'[name].Record? && l'[name].marble == l[name].marble.(owner := l'[name].marble.owner)
  {
    match tx
    case Init(args) =>
      InitIsRead(str, l, args, name);
      if InitAllowed(str, l, args) {
        KeysHaveNul(str.lower(args[1]), args[0]);
        assert WellIndexed(l, name);
      }
    case _ =>
  }
}
