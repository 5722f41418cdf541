/** The inventory service: a stock table with one record per
    (hospital, blood type), overwrite-upsert, adding units (keeping the later
    expiry), removing units with an insufficient-stock rejection, deleting
    expired records, and the low-stock alert to the hospital's first admin. */
module Inventory {
  import opened Domain

  /** Alerts fire strictly below this many millilitres. */
  const LowStockThreshold: int := 2000

  /** The unique compound key of the table. */
  datatype Key = Key(hospitalId: Id, bloodType: BloodType)

  /** A record's quantity (ml, never negative) and expiry timestamp. */
  datatype Stock = Stock(quantity: nat, expiry: int)

  type Table = map<Key, Stock>

  /** The low-stock rule: one `alert` to the first admin when the quantity
      left is strictly between 0 and the threshold, none otherwise. */
  function LowStockAlert(h: Hospital, quantity: int): (r: seq<Notice>)
    ensures r != [] <==> 0 < quantity < LowStockThreshold && |h.admins| > 0
    ensures r != [] ==> r == [Notice(h.admins[0], "alert")]
  {
    if 0 < quantity < LowStockThreshold then NoticeToFirstAdmin(h, "alert") else []
  }

  /** Every key but k keeps its record, and no key appears or disappears. */
  ghost predicate OthersUnchanged(t: Table, t': Table, k: Key) {
    forall j :: j != k ==> (j in t' <==> j in t) && (j in t ==> t'[j] == t[j])
  }

  /** findOneAndUpdate with upsert on the table: the record under k holds
      exactly the given values, created if absent. */
  function Upsert(t: Table, k: Key, item: Stock): (t': Table)
    ensures k in t' && t'[k] == item
    ensures OthersUnchanged(t, t', k)
  {
    t[k := item]
  }

  /** addBloodUnits on the table: grow an existing record by exactly the
      amount and keep the later expiry, or create one with that amount. */
  function AddUnits(t: Table, k: Key, amount: nat, expiry: int): (t': Table)
    ensures k in t'
    ensures k in t ==> t'[k].quantity == t[k].quantity + amount
    ensures k in t ==> t'[k].expiry == (if expiry > t[k].expiry then expiry else t[k].expiry)
    ensures k !in t ==> t'[k] == Stock(amount, expiry)
    ensures OthersUnchanged(t, t', k)
  {
    if k in t then
      var old_ := t[k];
      t[k := Stock(old_.quantity + amount, if expiry > old_.expiry then expiry else old_.expiry)]
    else t[k := Stock(amount, expiry)]
  }

  /** removeBloodUnits on the table, for an amount the record holds: the
      quantity drops by exactly the amount and the record stays, even at 0. */
  function TakeUnits(t: Table, k: Key, amount: nat): (t': Table)
    requires k in t && amount <= t[k].quantity
    ensures k in t'
    ensures t'[k].quantity == t[k].quantity - amount
    ensures t'[k].expiry == t[k].expiry
    ensures OthersUnchanged(t, t', k)
  {
    t[k := t[k].(quantity := t[k].quantity - amount)]
  }

  /** The records manageExpiredBlood finds: this hospital's, expiring strictly before now. */
  function ExpiredKeys(t: Table, hospitalId: Id, now: int): (r: set<Key>)
    ensures forall k :: k in r <==> k in t && k.hospitalId == hospitalId && t[k].expiry < now
  {
    set k | k in t && k.hospitalId == hospitalId && t[k].expiry < now
  }

  /** deleteMany of the expired records: exactly they go, everything else stays. */
  function Purge(t: Table, hospitalId: Id, now: int): (t': Table)
    ensures t'.Keys == t.Keys - ExpiredKeys(t, hospitalId, now)
    ensures forall k :: k in t' ==> t'[k] == t[k]
    ensures forall k :: k in t && k.hospitalId != hospitalId ==> k in t'
  {
    map k | k in t && !(k.hospitalId == hospitalId && t[k].expiry < now) :: t[k]
  }

  /** A second purge with the same clock finds nothing and changes nothing. */
  lemma PurgeIdempotent(t: Table, hospitalId: Id, now: int)
    ensures ExpiredKeys(Purge(t, hospitalId, now), hospitalId, now) == {}
    ensures Purge(Purge(t, hospitalId, now), hospitalId, now) == Purge(t, hospitalId, now)
  {
    var p := Purge(t, hospitalId, now);
    assert Purge(p, hospitalId, now).Keys == p.Keys;
  }

  /** Adding and then removing the same amount restores the quantity; a
      record that did not exist before is left behind with quantity 0. */
  lemma AddThenTake(t: Table, k: Key, amount: nat, expiry: int)
    ensures var t1 := AddUnits(t, k, amount, expiry);
      amount <= t1[k].quantity &&
      TakeUnits(t1, k, amount)[k].quantity == (if k in t then t[k].quantity else 0)
  {
  }

  /** Repeating an updateInventory call leaves the same table: the upsert
      overwrites rather than accumulates (the low-stock alert, though, is
      sent again). */
  lemma UpsertIdempotent(t: Table, k: Key, item: Stock)
    ensures Upsert(Upsert(t, k, item), k, item) == Upsert(t, k, item)
  {
  }

  class InventoryLedger {
    var stock: Table
    /** The notifications this service has issued, oldest first. */
    ghost var sent: seq<Notice>

    constructor ()
      ensures stock == map[] && sent == []
    {
      stock := map[];
      sent := [];
    }

    /** getHospitalInventory: 404 without the hospital, else its records. */
    function GetHospitalInventory(hospitals: map<Id, Hospital>, hospitalId: Id): (r: Result<map<BloodType, Stock>>)
      reads this
      ensures r.Err? <==> hospitalId !in hospitals
      ensures r.Err? ==> r.error == NotFound
      ensures r.Ok? ==> forall bt :: (bt in r.value <==> Key(hospitalId, bt) in stock)
      ensures r.Ok? ==> forall bt :: bt in r.value ==> r.value[bt] == stock[Key(hospitalId, bt)]
    {
      if hospitalId !in hospitals then Err(NotFound)
      else Ok(map bt | Key(hospitalId, bt) in stock :: stock[Key(hospitalId, bt)])
    }

    /** updateInventory: 404 without the hospital, 400 for a negative
        quantity or an invalid expiry date (None); otherwise the record holds
        exactly the given values, created if absent. */
    method UpdateInventory(hospitals: map<Id, Hospital>, hospitalId: Id, bloodType: BloodType,
                           quantity: int, expiry: Option<int>)
      returns (r: Result<Stock>)
      modifies this
      ensures hospitalId !in hospitals ==> r == Err(NotFound)
      ensures hospitalId in hospitals && (quantity < 0 || expiry.None?) ==> r == Err(BadRequest)
      ensures r.Err? ==> stock == old(stock) && sent == old(sent)
      ensures r.Ok? <==> hospitalId in hospitals && quantity >= 0 && expiry.Some?
      ensures r.Ok? ==>
        && r.value == Stock(quantity, expiry.value)
        && stock == Upsert(old(stock), Key(hospitalId, bloodType), r.value)
        && sent == old(sent) + LowStockAlert(hospitals[hospitalId], quantity)
    {
      if hospitalId !in hospitals {
        return Err(NotFound);
      }
      if quantity < 0 || expiry.None? {
        return Err(BadRequest);
      }
      var item := Stock(quantity, expiry.value);
      stock := Upsert(stock, Key(hospitalId, bloodType), item);
      sent := sent + LowStockAlert(hospitals[hospitalId], item.quantity);
      r := Ok(item);
    }

    /** addBloodUnits: 404 without the hospital, 400 for a non-positive
        amount or an invalid expiry; no alert either way. */
    method AddBloodUnits(hospitals: map<Id, Hospital>, hospitalId: Id, bloodType: BloodType,
                         amount: int, expiry: Option<int>)
      returns (r: Result<Stock>)
      modifies this
      ensures sent == old(sent)
      ensures hospitalId !in hospitals ==> r == Err(NotFound)
      ensures hospitalId in hospitals && (amount <= 0 || expiry.None?) ==> r == Err(BadRequest)
      ensures r.Err? ==> stock == old(stock)
      ensures r.Ok? <==> hospitalId in hospitals && amount > 0 && expiry.Some?
      ensures r.Ok? ==>
        && stock == AddUnits(old(stock), Key(hospitalId, bloodType), amount, expiry.value)
        && r.value == stock[Key(hospitalId, bloodType)]
    {
      if hospitalId !in hospitals {
        return Err(NotFound);
      }
      if amount <= 0 || expiry.None? {
        return Err(BadRequest);
      }
      var k := Key(hospitalId, bloodType);
      var item: Stock;
      if k in stock {
        item := stock[k];
        item := item.(quantity := item.quantity + amount);
        if expiry.value > item.expiry {
          item := item.(expiry := expiry.value);
        }
      } else {
        item := Stock(amount, expiry.value);
      }
      stock := stock[k := item];
      r := Ok(item);
    }

    /** removeBloodUnits: 404 without the hospital, 400 for a non-positive
        amount, 404 without the record, 400 when the record holds less than
        the amount; otherwise the quantity drops by the amount and the
        low-stock rule runs on what is left. */
    method RemoveBloodUnits(hospitals: map<Id, Hospital>, hospitalId: Id, bloodType: BloodType, amount: int)
      returns (r: Result<Stock>)
      modifies this
      ensures hospitalId !in hospitals ==> r == Err(NotFound)
      ensures hospitalId in hospitals && amount <= 0 ==> r == Err(BadRequest)
      ensures hospitalId in hospitals && amount > 0 && Key(hospitalId, bloodType) !in old(stock) ==> r == Err(NotFound)
      ensures (hospitalId in hospitals && amount > 0 && Key(hospitalId, bloodType) in old(stock)
               && old(stock)[Key(hospitalId, bloodType)].quantity < amount) ==> r == Err(BadRequest)
      ensures r.Err? ==> stock == old(stock) && sent == old(sent)
      ensures r.Ok? <==>
        && hospitalId in hospitals && amount > 0
        && Key(hospitalId, bloodType) in old(stock)
        && amount <= old(stock)[Key(hospitalId, bloodType)].quantity
      ensures r.Ok? ==>
        && stock == TakeUnits(old(stock), Key(hospitalId, bloodType), amount)
        && r.value == stock[Key(hospitalId, bloodType)]
        && sent == old(sent) + LowStockAlert(hospitals[hospitalId], r.value.quantity)
    {
      if hospitalId !in hospitals {
        return Err(NotFound);
      }
      if amount <= 0 {
        return Err(BadRequest);
      }
      var k := Key(hospitalId, bloodType);
      if k !in stock {
        return Err(NotFound);
      }
      var item := stock[k];
      if item.quantity < amount {
        return Err(BadRequest);
      }
      item := item.(quantity := item.quantity - amount);
      stock := stock[k := item];
      sent := sent + LowStockAlert(hospitals[hospitalId], item.quantity);
      r := Ok(item);
    }

    /** manageExpiredBlood: 404 without the hospital; otherwise delete this
        hospital's records that expire strictly before `now` and return how
        many went. */
    method ManageExpiredBlood(hospitals: map<Id, Hospital>, hospitalId: Id, now: int)
      returns (r: Result<nat>)
      modifies this`stock
      ensures hospitalId !in hospitals ==> r == Err(NotFound) && stock == old(stock)
      ensures hospitalId in hospitals ==>
        && r == Ok(|ExpiredKeys(old(stock), hospitalId, now)|)
        && stock == Purge(old(stock), hospitalId, now)
    {
      if hospitalId !in hospitals {
        return Err(NotFound);
      }
      var expired := ExpiredKeys(stock, hospitalId, now);
      if |expired| == 0 {
        assert Purge(stock, hospitalId, now) == stock;
        return Ok(0);
      }
      stock := Purge(stock, hospitalId, now);
      r := Ok(|expired|);
    }
  }

  /** The alert scenario: 2500 ml, remove 600, one alert; then remove 2000,
      rejected with the stock unchanged at 1900. A check on one concrete run
      of the ledger's contracts, not a model of a source operation. */
  method AlertScenario(h: Hospital, hospitalId: Id)
    requires |h.admins| > 0
  {
    var ledger := new InventoryLedger();
    var hospitals := map[hospitalId := h];
    var r0 := ledger.UpdateInventory(hospitals, hospitalId, APos, 2500, Some(100));
    assert ledger.sent == [];
    assert ledger.stock[Key(hospitalId, APos)] == Stock(2500, 100);
    var r1 := ledger.RemoveBloodUnits(hospitals, hospitalId, APos, 600);
    assert r1 == Ok(Stock(1900, 100));
    assert ledger.sent == [Notice(h.admins[0], "alert")];
    var r2 := ledger.RemoveBloodUnits(hospitals, hospitalId, APos, 2000);
    assert r2 == Err(BadRequest);
    assert ledger.stock[Key(hospitalId, APos)].quantity == 1900;
  }
}
