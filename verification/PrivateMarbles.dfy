/**
 The private-data variant of the marbles chaincode: records and index live in one collection, the prices in
 another, and the inputs come decoded from the transient map.
 */
module PrivateMarbles {
  import opened Wrappers
  import opened CompositeKeys
  import opened MarbleLedger

  datatype Details = Details(docType: string, name: string, price: int)

  datatype World = World(marbles: Ledger, details: map<string, Details>)

  datatype MarbleInput = MarbleInput(name: string, color: string, size: int, owner: string, price: int)

  datatype TransferInput = TransferInput(name: string, owner: string)

  /** The records are well indexed, and exactly the stored marbles have price details, under their own name. */
  ghost predicate Consistent(w: World) {
    && Agrees(w.marbles)
    && (forall k :: k in w.details <==> IsMarble(w.marbles, k))
    && (forall k | k in w.details :: w.details[k].name == k)
  }

  /**
   A transaction on both collections.  In contrast to the public ledger no handler reads a key that it wrote
   before, so whether reads see pending writes makes no difference.
   */
  class PrivateStub {
    const committed: World
    var marbles: Ledger
    var details: map<string, Details>

    constructor (w: World)
      ensures committed == w && marbles == w.marbles && details == w.details
    {
      committed, marbles, details := w, w.marbles, w.details;
    }

    method GetMarble(key: string) returns (v: Option<Value>)
      ensures v == if key in committed.marbles then Some(committed.marbles[key]) else None
    {
      v := if key in committed.marbles then Some(committed.marbles[key]) else None;
    }

    method PutMarble(key: string, v: Value)
      modifies this`marbles
      ensures marbles == old(marbles)[key := v]
    {
      marbles := marbles[key := v];
    }

    method DelMarble(key: string)
      modifies this`marbles
      ensures marbles == old(marbles) - {key}
    {
      marbles := marbles - {key};
    }

    method PutDetails(key: string, d: Details)
      modifies this`details
      ensures details == old(details)[key := d]
    {
      details := details[key := d];
    }

    method DelDetails(key: string)
      modifies this`details
      ensures details == old(details) - {key}
    {
      details := details - {key};
    }

    ghost predicate Fresh()
      reads this
    {
      marbles == committed.marbles && details == committed.details
    }
  }

  // ---------------------------------------------------------------------------------------------
  // Handlers; an absent input stands for a transient entry that is missing, empty, or does not decode
  // ---------------------------------------------------------------------------------------------

  predicate InitAllowed(w: World, argCount: nat, input: Option<MarbleInput>) {
    && argCount == 0 && input.Some?
    && var m := input.value;
    && m.name != "" && m.color != "" && m.size > 0 && m.owner != "" && m.price > 0
    && m.name !in w.marbles
    && ValidComponent(m.color) && ValidComponent(m.name)
  }

  function Initialised(w: World, m: MarbleInput): World {
    World(
      Inserted(w.marbles, Marble("marble", m.name, m.color, m.size, m.owner)),
      w.details[m.name := Details("marblePrivateDetails", m.name, m.price)])
  }

  method InitMarble(stub: PrivateStub, argCount: nat, input: Option<MarbleInput>) returns (ok: bool)
    requires stub.Fresh()
    modifies stub
    ensures ok <==> InitAllowed(stub.committed, argCount, input)
    ensures ok ==> World(stub.marbles, stub.details) == Initialised(stub.committed, input.value)
  {
    if argCount != 0 || input.None? {
      return false;
    }
    var m := input.value;
    if |m.name| == 0 || |m.color| == 0 || m.size <= 0 || |m.owner| == 0 || m.price <= 0 {
      return false;
    }
    var marbleAsBytes := stub.GetMarble(m.name);
    if marbleAsBytes.Some? {
      return false;
    }
    stub.PutMarble(m.name, Record(Marble("marble", m.name, m.color, m.size, m.owner)));
    stub.PutDetails(m.name, Details("marblePrivateDetails", m.name, m.price));
    var colorNameIndexKey := CreateIndexKey(m.color, m.name);
    if colorNameIndexKey.None? {
      return false;
    }
    stub.PutMarble(colorNameIndexKey.value, IndexEntry);
    return true;
  }

  predicate DeleteAllowed(w: World, argCount: nat, input: Option<string>) {
    && argCount == 0 && input.Some? && input.value != ""
    && IsMarble(w.marbles, input.value)
    && var m := w.marbles[input.value].marble;
    ValidComponent(m.color) && ValidComponent(m.name)
  }

  function Deleted(w: World, name: string): World
    requires IsMarble(w.marbles, name)
  {
    World(Removed(w.marbles, name, w.marbles[name].marble), w.details - {name})
  }

  method Delete(stub: PrivateStub, argCount: nat, input: Option<string>) returns (ok: bool)
    requires stub.Fresh()
    modifies stub
    ensures ok <==> DeleteAllowed(stub.committed, argCount, input)
    ensures ok ==> World(stub.marbles, stub.details) == Deleted(stub.committed, input.value)
  {
    if argCount != 0 || input.None? || |input.value| == 0 {
      return false;
    }
    var valAsBytes := stub.GetMarble(input.value);
    if valAsBytes.None? || !valAsBytes.value.Record? {
      return false;
    }
    var m := valAsBytes.value.marble;
    stub.DelMarble(input.value);
    var colorNameIndexKey := CreateIndexKey(m.color, m.name);
    if colorNameIndexKey.None? {
      return false;
    }
    stub.DelMarble(colorNameIndexKey.value);
    stub.DelDetails(input.value);
    return true;
  }

  predicate TransferAllowed(w: World, argCount: nat, input: Option<TransferInput>) {
    && argCount == 0 && input.Some? && input.value.name != "" && input.value.owner != ""
    && IsMarble(w.marbles, input.value.name)
  }

  /** The changed record goes back under the name inside the record, not under the name that was asked for. */
  function WrittenBack(w: World, input: TransferInput): World
    requires IsMarble(w.marbles, input.name)
  {
    var m := w.marbles[input.name].marble;
    w.(marbles := w.marbles[m.name := Record(m.(owner := input.owner))])
  }

  method TransferMarble(stub: PrivateStub, argCount: nat, input: Option<TransferInput>) returns (ok: bool)
    requires stub.Fresh()
    modifies stub
    ensures ok <==> TransferAllowed(stub.committed, argCount, input)
    ensures ok ==> World(stub.marbles, stub.details) == WrittenBack(stub.committed, input.value)
  {
    if argCount != 0 || input.None? || |input.value.name| == 0 || |input.value.owner| == 0 {
      return false;
    }
    var marbleAsBytes := stub.GetMarble(input.value.name);
    if marbleAsBytes.None? || !marbleAsBytes.value.Record? {
      return false;
    }
    var marbleToTransfer := marbleAsBytes.value.marble;
    marbleToTransfer := marbleToTransfer.(owner := input.value.owner);
    stub.PutMarble(marbleToTransfer.name, Record(marbleToTransfer));
    return true;
  }

  // ---------------------------------------------------------------------------------------------
  // Transactions and runs
  // ---------------------------------------------------------------------------------------------

  datatype Tx =
    | Init(argCount: nat, marble: Option<MarbleInput>)
    | Drop(argCount: nat, name: Option<string>)
    | Transfer(argCount: nat, transfer: Option<TransferInput>)

  function Execute(w: World, tx: Tx): World {
    match tx
    case Init(n, input) => if InitAllowed(w, n, input) then Initialised(w, input.value) else w
    case Drop(n, input) => if DeleteAllowed(w, n, input) then Deleted(w, input.value) else w
    case Transfer(n, input) => if TransferAllowed(w, n, input) then WrittenBack(w, input.value) else w
  }

  method Submit(w: World, tx: Tx) returns (w': World)
    ensures w' == Execute(w, tx)
  {
    var stub := new PrivateStub(w);
    var ok;
    match tx {
      case Init(n, input) => ok := InitMarble(stub, n, input);
      case Drop(n, input) => ok := Delete(stub, n, input);
      case Transfer(n, input) => ok := TransferMarble(stub, n, input);
    }
    w' := if ok then World(stub.marbles, stub.details) else w;
  }

  lemma ExecuteKeepsConsistency(w: World, tx: Tx)
    requires Consistent(w)
    ensures Consistent(Execute(w, tx))
  {
    match tx
    case Init(n, input) =>
      if InitAllowed(w, n, input) {
        var m := input.value;
        InsertKeepsAgreement(w.marbles, Marble("marble", m.name, m.color, m.size, m.owner));
        IndexIsExact(w.marbles, m.color, m.name);
        KeysHaveNul(m.color, m.name);
      }
    case Drop(n, input) =>
      if DeleteAllowed(w, n, input) {
        RemoveKeepsAgreement(w.marbles, input.value);
        assert WellIndexed(w.marbles, input.value);
      }
    case Transfer(n, input) =>
      if TransferAllowed(w, n, input) {
        assert WellIndexed(w.marbles, input.value.name);
        ChangeOwnersKeepsAgreement(w.marbles, Execute(w, tx).marbles);
      }
  }

  function RunAll(w: World, txs: seq<Tx>): World
    decreases |txs|
  {
    if txs == [] then w else RunAll(Execute(w, txs[0]), txs[1..])
  }

  /** Index, records and price details agree after any sequence of transactions on consistent collections. */
  lemma {:induction false} AlwaysConsistent(w: World, txs: seq<Tx>)
    requires Consistent(w)
    ensures Consistent(RunAll(w, txs))
    decreases |txs|
  {
    if txs != [] {
      ExecuteKeepsConsistency(w, txs[0]);
      AlwaysConsistent(Execute(w, txs[0]), txs[1..]);
    }
  }

  /** In particular after any sequence of transactions on the empty collections. */
  lemma ConsistentFromStart(txs: seq<Tx>)
    ensures Consistent(RunAll(World(map[], map[]), txs))
  {
    assert Agrees(World(map[], map[]).marbles);
    AlwaysConsistent(World(map[], map[]), txs);
  }

  /** On a consistent state the write-back changes the owner of the marble that was asked for, and nothing else. */
  lemma WriteBackHitsTheMarble(w: World, input: TransferInput, k: string)
    requires Consistent(w) && IsMarble(w.marbles, input.name)
    ensures WrittenBack(w, input).marbles.Keys == w.marbles.Keys && WrittenBack(w, input).details == w.details
    ensures k in w.marbles ==>
      WrittenBack(w, input).marbles[k]
      == if k == input.name then Record(w.marbles[k].marble.(owner := input.owner)) else w.marbles[k]
  {
    assert WellIndexed(w.marbles, input.name);
  }

  // ---------------------------------------------------------------------------------------------
  // What a later read returns, in terms of the inputs
  // ---------------------------------------------------------------------------------------------

  predicate InitRefused(w: World, argCount: nat, input: Option<MarbleInput>) {
    || argCount != 0 || input.None?
    || input.value.name == "" || input.value.color == "" || input.value.size <= 0
    || input.value.owner == "" || input.value.price <= 0
    || input.value.name in w.marbles
    || NUL in input.value.name || MAX_RUNE in input.value.name
    || NUL in input.value.color || MAX_RUNE in input.value.color
  }

  /** A created marble and its price are read back as requested; nothing but the index entry is new besides. */
  lemma InitIsRead(w: World, argCount: nat, input: Option<MarbleInput>, key: string)
    requires Consistent(w)
    ensures var w' := Execute(w, Init(argCount, input));
      if InitRefused(w, argCount, input) then w' == w
      else
        var m := input.value;
        var entry := CompositeKey(["color~name", m.color, m.name]);
        && m.name in w'.marbles && m.name in w'.details && entry !in w.marbles
        && w'.marbles[m.name] == Record(Marble("marble", m.name, m.color, m.size, m.owner))
        && w'.details[m.name] == Details("marblePrivateDetails", m.name, m.price)
        && entry in w'.marbles && w'.marbles[entry].IndexEntry?
        && (key != m.name && key != entry ==>
              (key in w'.marbles <==> key in w.marbles) && (key in w.marbles ==> w'.marbles[key] == w.marbles[key]))
        && (key != m.name ==>
              (key in w'.details <==> key in w.details) && (key in w.details ==> w'.details[key] == w.details[key]))
  {
    if !InitRefused(w, argCount, input) {
      IndexIsExact(w.marbles, input.value.color, input.value.name);
      KeysHaveNul(input.value.color, input.value.name);
    }
  }

  /** A deleted marble is gone from both collections with its index entry; nothing else changes. */
  lemma DropIsRead(w: World, argCount: nat, name: Option<string>, key: string)
    requires Consistent(w)
    ensures var w' := Execute(w, Drop(argCount, name));
      if argCount != 0 || name.None? || name.value == "" || !IsMarble(w.marbles, name.value) then w' == w
      else
        var entry := CompositeKey(["color~name", w.marbles[name.value].marble.color, name.value]);
        && entry in w.marbles && entry !in w'.marbles && name.value !in w'.marbles && name.value !in w'.details
        && (key != name.value && key != entry ==>
              (key in w'.marbles <==> key in w.marbles) && (key in w.marbles ==> w'.marbles[key] == w.marbles[key]))
        && (key != name.value ==>
              (key in w'.details <==> key in w.details) && (key in w.details ==> w'.details[key] == w.details[key]))
  {
    if name.Some? && IsMarble(w.marbles, name.value) {
      assert WellIndexed(w.marbles, name.value);
    }
  }

  /** A transfer changes the owner of the requested marble to the given text, and no price. */
  lemma TransferIsRead(w: World, argCount: nat, input: Option<TransferInput>, key: string)
    requires Consistent(w)
    ensures var w' := Execute(w, Transfer(argCount, input));
      && w'.details == w.details && w'.marbles.Keys == w.marbles.Keys
      && (key in w.marbles ==>
            if argCount == 0 && input.Some? && input.value.name != "" && input.value.owner != ""
               && key == input.value.name && w.marbles[key].Record?
            then w'.marbles[key].Record?
                 && w'.marbles[key].marble == w.marbles[key].marble.(owner := input.value.owner)
            else w'.marbles[key] == w.marbles[key])
  {
    if TransferAllowed(w, argCount, input) {
      WriteBackHitsTheMarble(w, input.value, key);
    }
  }

  /** As long as a marble is stored, no transaction changes its price or anything of its record but the owner. */
  lemma OnlyOwnersChange(w: World, tx: Tx, name: string)
    requires Consistent(w) && IsMarble(w.marbles, name) && name in Execute(w, tx).marbles
    ensures var w' := Execute(w, tx);
      && name in w.details && name in w'.details && w'.details[name] == w.details[name]
      && w'.marbles[name].Record?
      && w'.marbles[name].marble == w.marbles[name].marble.(owner := w'.marbles[name].marble.owner)
  {
    assert WellIndexed(w.marbles, name);
    match tx
    case Init(n, input) =>
      InitIsRead(w, n, input, name);
      if InitAllowed(w, n, input) {
        KeysHaveNul(input.value.color, input.value.name);
      }
    case Drop(n, input) => DropIsRead(w, n, input, name);
    case Transfer(n, input) => TransferIsRead(w, n, input, name);
  }
}
