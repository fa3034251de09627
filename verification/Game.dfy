/** The game zone (examples/game/src/server.rs, world.rs): items move between the ground and the
    players' inventories.  Positions are reals; the distance test of PickUp is left open. */
module Game {
  import opened Wrappers
  import opened MapSums

  datatype ItemKind = Sword | Shield | Potion | Key | Gem | Torch

  datatype InventoryItem = InventoryItem(kind: ItemKind, count: nat)

  datatype WorldItem = WorldItem(id: nat, kind: ItemKind, x: real, y: real)

  datatype Player = Player(identity: string, name: string, x: real, y: real, health: nat, maxHealth: nat,
                           inventory: seq<InventoryItem>)

  datatype World = World(name: string, tick: nat, players: map<string, Player>, items: seq<WorldItem>,
                         allowWeapons: bool)

  datatype Intent =
    | Move(dx: real, dy: real)
    | UseItem(slot: nat)
    | PickUp(itemId: nat, near: bool)   // near: what the distance test answers for the item found
    | Drop(slot: nat)
    | Transfer(destination: string)

  function Clamp(v: real): real {
    if v < -100.0 then -100.0 else if v > 100.0 then 100.0 else v
  }

  function Min(a: nat, b: nat): nat { if a < b then a else b }

  /** The first ground item with an id. */
  function Position(items: seq<WorldItem>, id: nat): (i: Option<nat>)
    ensures i.Some? ==> i.value < |items| && items[i.value].id == id
    ensures i.Some? ==> forall j :: 0 <= j < i.value ==> items[j].id != id
    ensures i.None? ==> forall j :: 0 <= j < |items| ==> items[j].id != id
  {
    if items == [] then None
    else if items[0].id == id then Some(0)
    else
      var i := Position(items[1..], id);
      if i.None? then None
      else
        assert forall j :: 1 <= j < i.value + 1 ==> items[j] == items[1..][j - 1];
        Some(i.value + 1)
  }

  function Without<T>(s: seq<T>, i: nat): seq<T>
    requires i < |s|
  {
    s[..i] + s[i + 1..]
  }

  function WithPlayer(w: World, p: Player, id: string): World {
    w.(players := w.players[id := p])
  }

  datatype Passport = Passport(identity: string, name: string, health: nat, maxHealth: nat,
                               inventory: seq<InventoryItem>, originZone: string)

  function ToPassport(p: Player, origin: string): Passport {
    Passport(p.identity, p.name, p.health, p.maxHealth, p.inventory, origin)
  }

  /** What is sent back for an intent. */
  datatype Reply = NoReply | UnknownDestination(message: string) | TransferTo(destination: string, passport: Passport)

  function ReplyTo(w: World, id: string, intent: Intent, peer: Option<string>): Reply {
    if !intent.Transfer? then NoReply
    else if peer != Some(intent.destination) then UnknownDestination("Unknown destination: " + intent.destination)
    else if id in w.players then TransferTo(intent.destination, ToPassport(w.players[id], w.name))
    else NoReply
  }

  /** One intent of a connection with this identity. */
  function Handle(w: World, id: string, intent: Intent): World {
    if id !in w.players then w
    else
      var p := w.players[id];
      match intent
      case Move(dx, dy) => WithPlayer(w, p.(x := Clamp(p.x + dx), y := Clamp(p.y + dy)), id)
      case PickUp(itemId, near) =>
        var i := Position(w.items, itemId);
        if i.None? || !near then w
        else
          var item := w.items[i.value];
          WithPlayer(w, p.(inventory := p.inventory + [InventoryItem(item.kind, 1)]), id)
            .(items := Without(w.items, i.value))
      case UseItem(slot) =>
        if slot < |p.inventory| && p.inventory[slot].kind == Potion then
          WithPlayer(w, p.(health := Min(p.health + 25, p.maxHealth), inventory := Without(p.inventory, slot)), id)
        else w
      case Drop(slot) =>
        if slot < |p.inventory| then
          WithPlayer(w, p.(inventory := Without(p.inventory, slot)), id)
            .(items := w.items + [WorldItem(w.tick, p.inventory[slot].kind, p.x, p.y)])
        else w
      case Transfer(_) => w
  }

  class Zone {
    const name: string
    const allowWeapons: bool
    var tick: nat
    var players: map<string, Player>
    var items: seq<WorldItem>

    ghost function Abstract(): World
      reads this
    {
      World(name, tick, players, items, allowWeapons)
    }

    constructor (w: World)
      ensures Abstract() == w
    {
      name, tick, players, items, allowWeapons := w.name, w.tick, w.players, w.items, w.allowWeapons;
    }

    method AddPlayer(player: Player)
      modifies this`players
      ensures players == old(players)[player.identity := player]
    {
      players := players[player.identity := player];
    }

    method RemovePlayer(identity: string) returns (gone: Option<Player>)
      modifies this`players
      ensures gone == if identity in old(players) then Some(old(players)[identity]) else None
      ensures players == old(players) - {identity}
    {
      gone := if identity in players then Some(players[identity]) else None;
      players := players - {identity};
    }

    method Tick()
      modifies this`tick
      ensures tick == old(tick) + 1
    {
      tick := tick + 1;
    }

    method HandleIntent(identity: string, intent: Intent, peer: Option<string>) returns (reply: Reply)
      modifies this`players, this`items
      ensures Abstract() == Handle(old(Abstract()), identity, intent)
      ensures reply == ReplyTo(old(Abstract()), identity, intent, peer)
    {
      reply := NoReply;
      if intent.Transfer? && peer != Some(intent.destination) {
        return UnknownDestination("Unknown destination: " + intent.destination);
      }
      if identity !in players {
        return;
      }
      var player := players[identity];
      match intent {
        case Move(dx, dy) =>
          players := players[identity := player.(x := Clamp(player.x + dx), y := Clamp(player.y + dy))];
        case PickUp(itemId, near) =>
          var idx := Position(items, itemId);
          if idx.Some? && near {
            var item := items[idx.value];
            items := items[..idx.value] + items[idx.value + 1..];
            players := players[identity := player.(inventory := player.inventory + [InventoryItem(item.kind, 1)])];
          }
        case UseItem(slot) =>
          if slot < |player.inventory| && player.inventory[slot].kind == Potion {
            player := player.(health := Min(player.health + 25, player.maxHealth));
            player := player.(inventory := player.inventory[..slot] + player.inventory[slot + 1..]);
            players := players[identity := player];
          }
        case Drop(slot) =>
          if slot < |player.inventory| {
            var item := player.inventory[slot];
            player := player.(inventory := player.inventory[..slot] + player.inventory[slot + 1..]);
            players := players[identity := player];
            items := items + [WorldItem(tick, item.kind, player.x, player.y)];
          }
        case Transfer(destination) =>
          reply := TransferTo(destination, ToPassport(player, name));
      }
    }

    /** The import policy: a pass that splits an incoming inventory. */
    method ApplyImportPolicy(inventory: seq<InventoryItem>, health: nat)
      returns (accepted: seq<InventoryItem>, rejected: seq<InventoryItem>, clamped: nat)
      ensures accepted == Allowed(allowWeapons, inventory)
      ensures rejected == Refused(allowWeapons, inventory)
      ensures multiset(accepted) + multiset(rejected) == multiset(inventory)
      ensures clamped == ClampHealth(health)
    {
      accepted, rejected := [], [];
      for i := 0 to |inventory|
        invariant accepted == Allowed(allowWeapons, inventory[..i])
        invariant rejected == Refused(allowWeapons, inventory[..i])
      {
        var item := inventory[i];
        assert inventory[..i + 1][..i] == inventory[..i];
        if !allowWeapons && IsWeapon(item.kind) {
          rejected := rejected + [item];
        } else {
          accepted := accepted + [item];
        }
      }
      assert inventory[..|inventory|] == inventory;
      PolicyPartitions(allowWeapons, inventory);
      clamped := ClampHealth(health);
    }
  }

  predicate IsWeapon(kind: ItemKind) { kind == Sword }

  function ClampHealth(health: nat): nat {
    if health < 1 then 1 else if health > 100 then 100 else health
  }

  function Allowed(weapons: bool, inv: seq<InventoryItem>): seq<InventoryItem> {
    if inv == [] then []
    else
      var last := inv[|inv| - 1];
      Allowed(weapons, inv[..|inv| - 1]) + if weapons || !IsWeapon(last.kind) then [last] else []
  }

  function Refused(weapons: bool, inv: seq<InventoryItem>): seq<InventoryItem> {
    if inv == [] then []
    else
      var last := inv[|inv| - 1];
      Refused(weapons, inv[..|inv| - 1]) + if weapons || !IsWeapon(last.kind) then [] else [last]
  }

  lemma {:induction false} PolicyPartitions(weapons: bool, inv: seq<InventoryItem>)
    ensures multiset(Allowed(weapons, inv)) + multiset(Refused(weapons, inv)) == multiset(inv)
  {
    if inv != [] {
      PolicyPartitions(weapons, inv[..|inv| - 1]);
      assert inv == inv[..|inv| - 1] + [inv[|inv| - 1]];
    }
  }

  // -------------------------------------------------------------------------
  // Counting items of a kind.
  // -------------------------------------------------------------------------

  /** Inventory slots of a kind. */
  function Slots(inv: seq<InventoryItem>, k: ItemKind): nat {
    if inv == [] then 0 else One(inv[0].kind == k) + Slots(inv[1..], k)
  }

  function OnGround(items: seq<WorldItem>, k: ItemKind): nat {
    if items == [] then 0 else One(items[0].kind == k) + OnGround(items[1..], k)
  }

  function SlotCounter(k: ItemKind): Player -> nat {
    (p: Player) => Slots(p.inventory, k)
  }

  /** Items of a kind in the zone: those on the ground and one per slot of every player. */
  ghost function Total(w: World, k: ItemKind): nat {
    OnGround(w.items, k) + Sum(w.players, SlotCounter(k))
  }

  lemma {:induction false} SlotsConcat(a: seq<InventoryItem>, b: seq<InventoryItem>, k: ItemKind)
    ensures Slots(a + b, k) == Slots(a, k) + Slots(b, k)
  {
    if a == [] {
      assert a + b == b;
    } else {
      SlotsConcat(a[1..], b, k);
      assert (a + b)[1..] == a[1..] + b;
    }
  }

  lemma {:induction false} GroundConcat(a: seq<WorldItem>, b: seq<WorldItem>, k: ItemKind)
    ensures OnGround(a + b, k) == OnGround(a, k) + OnGround(b, k)
  {
    if a == [] {
      assert a + b == b;
    } else {
      GroundConcat(a[1..], b, k);
      assert (a + b)[1..] == a[1..] + b;
    }
  }

  lemma SlotsWithout(inv: seq<InventoryItem>, i: nat, k: ItemKind)
    requires i < |inv|
    ensures Slots(Without(inv, i), k) + One(inv[i].kind == k) == Slots(inv, k)
  {
    SlotsConcat(inv[..i], inv[i + 1..], k);
    SlotsConcat(inv[..i], inv[i..], k);
    assert inv[..i] + inv[i..] == inv && inv[i..][1..] == inv[i + 1..];
  }

  lemma GroundWithout(items: seq<WorldItem>, i: nat, k: ItemKind)
    requires i < |items|
    ensures OnGround(Without(items, i), k) + One(items[i].kind == k) == OnGround(items, k)
  {
    GroundConcat(items[..i], items[i + 1..], k);
    GroundConcat(items[..i], items[i..], k);
    assert items[..i] + items[i..] == items && items[i..][1..] == items[i + 1..];
  }

  /** A potion is drunk. */
  predicate Drinks(w: World, id: string, intent: Intent) {
    && intent.UseItem? && id in w.players
    && intent.slot < |w.players[id].inventory| && w.players[id].inventory[intent.slot].kind == Potion
  }

  /** One player's inventory and the ground change; nobody else's does. */
  lemma TotalOfChange(w: World, p: Player, id: string, items: seq<WorldItem>, k: ItemKind)
    requires id in w.players
    ensures Total(WithPlayer(w, p, id).(items := items), k) + OnGround(w.items, k) + Slots(w.players[id].inventory, k)
            == Total(w, k) + OnGround(items, k) + Slots(p.inventory, k)
  {
    SumUpdate(w.players, SlotCounter(k), id, p);
  }

  lemma PickUpConserves(w: World, id: string, itemId: nat, near: bool, k: ItemKind)
    requires id in w.players
    ensures Total(Handle(w, id, PickUp(itemId, near)), k) == Total(w, k)
  {
    var i := Position(w.items, itemId);
    if i.Some? && near {
      var p := w.players[id];
      var slot := InventoryItem(w.items[i.value].kind, 1);
      GroundWithout(w.items, i.value, k);
      SlotsConcat(p.inventory, [slot], k);
      TotalOfChange(w, p.(inventory := p.inventory + [slot]), id, Without(w.items, i.value), k);
    }
  }

  lemma DropConserves(w: World, id: string, slot: nat, k: ItemKind)
    requires id in w.players
    ensures Total(Handle(w, id, Drop(slot)), k) == Total(w, k)
  {
    var p := w.players[id];
    if slot < |p.inventory| {
      var item := WorldItem(w.tick, p.inventory[slot].kind, p.x, p.y);
      SlotsWithout(p.inventory, slot, k);
      GroundConcat(w.items, [item], k);
      TotalOfChange(w, p.(inventory := Without(p.inventory, slot)), id, w.items + [item], k);
    }
  }

  lemma UseConserves(w: World, id: string, slot: nat, k: ItemKind)
    requires id in w.players
    ensures Total(Handle(w, id, UseItem(slot)), k) + One(k == Potion && Drinks(w, id, UseItem(slot))) == Total(w, k)
  {
    var p := w.players[id];
    if Drinks(w, id, UseItem(slot)) {
      SlotsWithout(p.inventory, slot, k);
      TotalOfChange(w, Handle(w, id, UseItem(slot)).players[id], id, w.items, k);
    }
  }

  /** An intent creates and destroys nothing, but for the potion that a successful UseItem drinks. */
  lemma IntentConserves(w: World, id: string, intent: Intent, k: ItemKind)
    ensures Total(Handle(w, id, intent), k) + One(k == Potion && Drinks(w, id, intent)) == Total(w, k)
  {
    if id in w.players {
      match intent {
        case Move(_, _) => TotalOfChange(w, Handle(w, id, intent).players[id], id, w.items, k);
        case PickUp(itemId, near) => PickUpConserves(w, id, itemId, near, k);
        case Transfer(_) =>
        case UseItem(slot) => UseConserves(w, id, slot, k);
        case Drop(slot) => DropConserves(w, id, slot, k);
      }
    }
  }

  /** An intent touches no other player; of its own player it keeps who it is, heals by at most 25 and
      not beyond the maximum, only for a potion, and moves it only within the zone. */
  lemma IntentIsOwn(w: World, id: string, intent: Intent, other: string)
    ensures var w' := Handle(w, id, intent);
            && (other in w'.players <==> other in w.players)
            && (other in w.players && other != id ==> w'.players[other] == w.players[other])
    ensures id in w.players ==>
              var p, p' := w.players[id], Handle(w, id, intent).players[id];
              && p'.identity == p.identity && p'.name == p.name && p'.maxHealth == p.maxHealth
              && (p'.health != p.health ==> Drinks(w, id, intent))
              && (p.health <= p.maxHealth ==> p.health <= p'.health <= p.maxHealth && p'.health <= p.health + 25)
              && (!intent.Move? ==> p'.x == p.x && p'.y == p.y)
              && (intent.Move? ==> -100.0 <= p'.x <= 100.0 && -100.0 <= p'.y <= 100.0)
  {
  }

  /** What a move does to one coordinate: it goes there, or to the zone's edge. */
  predicate MovedTo(from: real, step: real, to: real) {
    if from + step > 100.0 then to == 100.0
    else if from + step < -100.0 then to == -100.0
    else to == from + step
  }

  /** A moving player arrives where it went, nobody and nothing else changes. */
  lemma MoveArrives(w: World, id: string, dx: real, dy: real)
    requires id in w.players
    ensures var p, p' := w.players[id], Handle(w, id, Move(dx, dy)).players[id];
            && MovedTo(p.x, dx, p'.x) && MovedTo(p.y, dy, p'.y) && p' == p.(x := p'.x, y := p'.y)
            && Handle(w, id, Move(dx, dy)) == w.(players := w.players[id := p'])
  {
  }

  /** Using a slot: a potion there gives 25 points up to the maximum and is gone, the other slots close
      up; anything else, or no slot, changes nothing. */
  lemma UseItemEffect(w: World, id: string, slot: nat)
    requires id in w.players
    ensures var p, w' := w.players[id], Handle(w, id, UseItem(slot));
            if slot < |p.inventory| && p.inventory[slot].kind == Potion then
              var p' := w'.players[id];
              && p'.health == (if p.health + 25 <= p.maxHealth then p.health + 25 else p.maxHealth)
              && |p'.inventory| == |p.inventory| - 1
              && (forall i :: 0 <= i < |p'.inventory| ==> p'.inventory[i] == p.inventory[if i < slot then i else i + 1])
              && p' == p.(health := p'.health, inventory := p'.inventory)
              && w' == w.(players := w.players[id := p'])
            else w' == w
  {
  }

  /** Picking up: the first item with that id, if there is one and it is near, leaves the ground and
      stands alone in a new last slot; otherwise nothing changes. */
  lemma PickUpEffect(w: World, id: string, itemId: nat, near: bool, i: nat)
    requires id in w.players
    ensures var p, w' := w.players[id], Handle(w, id, PickUp(itemId, near));
            && (!near || (forall j :: 0 <= j < |w.items| ==> w.items[j].id != itemId) ==> w' == w)
            && (near && i < |w.items| && w.items[i].id == itemId
                && (forall j :: 0 <= j < i ==> w.items[j].id != itemId) ==>
                  var more := p.inventory + [InventoryItem(w.items[i].kind, 1)];
                  w' == w.(items := w.items[..i] + w.items[i + 1..],
                           players := w.players[id := p.(inventory := more)]))
  {
    hide Without;
    var found := Position(w.items, itemId);
    if near && i < |w.items| && w.items[i].id == itemId && (forall j :: 0 <= j < i ==> w.items[j].id != itemId) {
      assert found == Some(i);
      assert Without(w.items, i) == w.items[..i] + w.items[i + 1..] by { WithoutIs(w.items, i); }
    }
  }

  lemma WithoutIs(items: seq<WorldItem>, i: nat)
    requires i < |items|
    ensures Without(items, i) == items[..i] + items[i + 1..]
  {
  }

  /** Dropping: the slot's item, all of its stack as one piece, stands last on the ground at the
      player's place under the tick; with no such slot nothing changes. */
  lemma DropEffect(w: World, id: string, slot: nat)
    requires id in w.players
    ensures var p, w' := w.players[id], Handle(w, id, Drop(slot));
            if slot < |p.inventory| then
              var p' := w'.players[id];
              && |p'.inventory| == |p.inventory| - 1
              && (forall i :: 0 <= i < |p'.inventory| ==> p'.inventory[i] == p.inventory[if i < slot then i else i + 1])
              && p' == p.(inventory := p'.inventory)
              && w' == w.(items := w.items + [WorldItem(w.tick, p.inventory[slot].kind, p.x, p.y)],
                          players := w.players[id := p'])
            else w' == w
  {
  }

  lemma {:induction false} PositionOfNew(items: seq<WorldItem>, item: WorldItem)
    ensures Position(items + [item], item.id) ==
            if Position(items, item.id).Some? then Position(items, item.id) else Some(|items|)
  {
    var all := items + [item];
    assert all[|items|] == item;
    if items != [] && items[0].id != item.id {
      PositionOfNew(items[1..], item);
      assert all[1..] == items[1..] + [item];
    }
  }

  /** Dropping a slot and picking up, in reach, under the id it was dropped with, the tick: the ground
      is as before and the item is back, as a single piece in the last slot, unless a ground item
      had that id already; then that one is taken and the dropped item stays. */
  lemma DropThenPickUp(w: World, id: string, slot: nat)
    requires id in w.players && slot < |w.players[id].inventory|
    ensures var w' := Handle(Handle(w, id, Drop(slot)), id, PickUp(w.tick, true));
            var p := w.players[id];
            var first := Position(w.items, w.tick);
            var taken := if first.None? then p.inventory[slot].kind else w.items[first.value].kind;
            && w'.players == w.players[id := p.(inventory := Without(p.inventory, slot) + [InventoryItem(taken, 1)])]
            && w'.items == if first.None? then w.items
                           else Without(w.items, first.value) + [WorldItem(w.tick, p.inventory[slot].kind, p.x, p.y)]
  {
    var p := w.players[id];
    var dropped := WorldItem(w.tick, p.inventory[slot].kind, p.x, p.y);
    PositionOfNew(w.items, dropped);
    WithoutBehind(w.items, dropped);
    hide Position, Without;
    var w1 := Handle(w, id, Drop(slot));
    assert w1.items == w.items + [dropped] && w1.players[id] == p.(inventory := Without(p.inventory, slot));
  }

  lemma WithoutBehind(items: seq<WorldItem>, item: WorldItem)
    ensures Without(items + [item], |items|) == items
    ensures forall i :: 0 <= i < |items| ==> Without(items + [item], i) == Without(items, i) + [item]
  {
  }

  // -------------------------------------------------------------------------
  // Whole runs.
  // -------------------------------------------------------------------------

  datatype Action = Act(id: string, intent: Intent) | Join(player: Player) | Leave(id: string) | Tick

  function Next(w: World, a: Action): World {
    match a
    case Act(id, intent) => Handle(w, id, intent)
    case Join(player) => WithPlayer(w, player, player.identity)
    case Leave(id) => w.(players := w.players - {id})
    case Tick => w.(tick := w.tick + 1)
  }

  function Run(w: World, actions: seq<Action>): World {
    if actions == [] then w else Next(Run(w, actions[..|actions| - 1]), actions[|actions| - 1])
  }

  function Ticks(actions: seq<Action>): nat {
    if actions == [] then 0
    else Ticks(actions[..|actions| - 1]) + if actions[|actions| - 1].Tick? then 1 else 0
  }

  /** Only ticks move the tick, by one each, and they move nothing else; a zone keeps its name and rule. */
  lemma {:induction false} TicksCount(w: World, actions: seq<Action>)
    ensures Run(w, actions).tick == w.tick + Ticks(actions)
    ensures Run(w, actions).name == w.name && Run(w, actions).allowWeapons == w.allowWeapons
    ensures var next := Run(w, actions + [Tick]);
            next.players == Run(w, actions).players && next.items == Run(w, actions).items
  {
    if actions != [] {
      TicksCount(w, actions[..|actions| - 1]);
    }
    assert (actions + [Tick])[..|actions|] == actions;
  }

  function Held(w: World, id: string, k: ItemKind): nat {
    if id in w.players then Slots(w.players[id].inventory, k) else 0
  }

  /** What an action brings into the zone and takes out of it. */
  function Brought(w: World, a: Action, k: ItemKind): nat {
    if a.Join? then Slots(a.player.inventory, k) else 0
  }

  function Taken(w: World, a: Action, k: ItemKind): nat {
    match a
    case Act(id, intent) => One(k == Potion && Drinks(w, id, intent))
    case Join(player) => Held(w, player.identity, k)   // replaced by a join under the same identity
    case Leave(id) => Held(w, id, k)
    case Tick => 0
  }

  function AllBrought(w: World, actions: seq<Action>, k: ItemKind): nat {
    if actions == [] then 0
    else
      var before := actions[..|actions| - 1];
      AllBrought(w, before, k) + Brought(Run(w, before), actions[|actions| - 1], k)
  }

  function AllTaken(w: World, actions: seq<Action>, k: ItemKind): nat {
    if actions == [] then 0
    else
      var before := actions[..|actions| - 1];
      AllTaken(w, before, k) + Taken(Run(w, before), actions[|actions| - 1], k)
  }

  lemma ActionConserves(w: World, a: Action, k: ItemKind)
    ensures Total(Next(w, a), k) + Taken(w, a, k) == Total(w, k) + Brought(w, a, k)
  {
    match a {
      case Act(id, intent) => IntentConserves(w, id, intent, k);
      case Join(player) => SumUpdate(w.players, SlotCounter(k), player.identity, player);
      case Leave(id) =>
        if id in w.players {
          SumRemove(w.players, SlotCounter(k), id);
        } else {
          assert w.players - {id} == w.players;
        }
      case Tick =>
    }
  }

  /** Over any run of any players, a kind's items change by what joins bring and leaves take, and by
      the potions drunk; nothing else appears or vanishes. */
  lemma {:induction false} RunConserves(w: World, actions: seq<Action>, k: ItemKind)
    ensures Total(Run(w, actions), k) + AllTaken(w, actions, k) == Total(w, k) + AllBrought(w, actions, k)
  {
    if actions != [] {
      var before := actions[..|actions| - 1];
      RunConserves(w, before, k);
      ActionConserves(Run(w, before), actions[|actions| - 1], k);
    }
  }

  /** Successful drinks in a run. */
  function Drunk(w: World, actions: seq<Action>): nat {
    if actions == [] then 0
    else
      var before := actions[..|actions| - 1];
      var a := actions[|actions| - 1];
      Drunk(w, before) + One(a.Act? && Drinks(Run(w, before), a.id, a.intent))
  }

  /** While nobody joins or leaves, only potions go, one for each successful drink. */
  lemma {:induction false} ClosedZoneConserves(w: World, actions: seq<Action>, k: ItemKind)
    requires forall i :: 0 <= i < |actions| ==> actions[i].Act? || actions[i].Tick?
    ensures Total(Run(w, actions), k) + (if k == Potion then Drunk(w, actions) else 0) == Total(w, k)
  {
    if actions != [] {
      var before := actions[..|actions| - 1];
      ClosedZoneConserves(w, before, k);
      ActionConserves(Run(w, before), actions[|actions| - 1], k);
    }
  }

  // -------------------------------------------------------------------------
  // Transfer between zones.
  // -------------------------------------------------------------------------

  /** The player that a passport becomes under a zone's import policy. */
  function FromPassport(passport: Passport, weapons: bool): Player {
    Player(passport.identity, passport.name, 0.0, 0.0, ClampHealth(passport.health), passport.maxHealth,
           Allowed(weapons, passport.inventory))
  }

  lemma {:induction false} AllowedSlots(weapons: bool, inv: seq<InventoryItem>, k: ItemKind)
    ensures Slots(Allowed(weapons, inv), k) == if !weapons && IsWeapon(k) then 0 else Slots(inv, k)
  {
    hide Slots;
    if inv == [] {
      assert Slots([], k) == 0 by { NoSlots(k); }
    } else {
      var init, last := inv[..|inv| - 1], inv[|inv| - 1];
      AllowedSlots(weapons, init, k);
      SlotsConcat(init, [last], k);
      assert inv == init + [last];
      SlotsConcat(Allowed(weapons, init), if weapons || !IsWeapon(last.kind) then [last] else [], k);
      OneSlot(last, k);
      NoSlots(k);
    }
  }

  lemma NoSlots(k: ItemKind)
    ensures Slots([], k) == 0
  {
  }

  lemma OneSlot(item: InventoryItem, k: ItemKind)
    ensures Slots([item], k) == One(item.kind == k)
  {
    assert [item][..0] == [];
  }

  lemma {:induction false} AllAllowed(inv: seq<InventoryItem>)
    ensures Allowed(true, inv) == inv
  {
    if inv != [] {
      AllAllowed(inv[..|inv| - 1]);
      assert inv == inv[..|inv| - 1] + [inv[|inv| - 1]];
    }
  }

  /** A transfer keeps who the player is; it keeps every slot if the zone allows weapons, and
      otherwise exactly the slots that hold none. */
  lemma TransferKeeps(p: Player, origin: string, weapons: bool, k: ItemKind)
    ensures var p' := FromPassport(ToPassport(p, origin), weapons);
            && p'.identity == p.identity && p'.name == p.name && p'.maxHealth == p.maxHealth
            && p'.health == (if p.health < 1 then 1 else if p.health > 100 then 100 else p.health)
            && p'.x == 0.0 && p'.y == 0.0
            && Slots(p'.inventory, k) == (if !weapons && k == Sword then 0 else Slots(p.inventory, k))
            && (weapons ==> p'.inventory == p.inventory)
  {
    AllowedSlots(weapons, p.inventory, k);
    AllAllowed(p.inventory);
  }

  /** A player who asks for a transfer, joins the other zone with the passport it is given and leaves
      this one: over both zones a kind's items are kept, but for refused weapons, and for those of a
      player with the same identity that the other zone had. */
  lemma TransferConserves(w1: World, w2: World, id: string, destination: string, k: ItemKind)
    requires id in w1.players
    ensures var reply := ReplyTo(w1, id, Transfer(destination), Some(destination));
            && reply.TransferTo? && Handle(w1, id, Transfer(destination)) == w1
            && var arrived := FromPassport(reply.passport, w2.allowWeapons);
            var w1' := Next(w1, Leave(id));
            var w2' := Next(w2, Join(arrived));
            Total(w1', k) + Total(w2', k) + Held(w2, arrived.identity, k)
              + (if !w2.allowWeapons && k == Sword then Held(w1, id, k) else 0)
            == Total(w1, k) + Total(w2, k)
  {
    var arrived := FromPassport(ToPassport(w1.players[id], w1.name), w2.allowWeapons);
    ActionConserves(w1, Leave(id), k);
    ActionConserves(w2, Join(arrived), k);
    TransferKeeps(w1.players[id], w1.name, w2.allowWeapons, k);
  }

  /** A transfer is answered with the player's own passport, if the destination is the peer and the
      player is there; with an error for any other destination; and no other intent is answered. */
  lemma TransferAnswer(w: World, id: string, destination: string, peer: Option<string>)
    ensures ReplyTo(w, id, Transfer(destination), peer) ==
            if peer != Some(destination) then UnknownDestination("Unknown destination: " + destination)
            else if id !in w.players then NoReply
            else
              var p := w.players[id];
              TransferTo(destination, Passport(p.identity, p.name, p.health, p.maxHealth, p.inventory, w.name))
    ensures forall intent: Intent :: !intent.Transfer? ==> ReplyTo(w, id, intent, peer) == NoReply
    ensures Handle(w, id, Transfer(destination)) == w
  {
  }

  /** The import policy refuses exactly the swords, in a zone without weapons. */
  lemma {:induction false} RefusesSwords(weapons: bool, inv: seq<InventoryItem>, i: nat)
    requires i < |inv|
    ensures inv[i] in if !weapons && inv[i].kind == Sword then Refused(weapons, inv) else Allowed(weapons, inv)
    ensures forall item :: item in Refused(weapons, inv) ==> !weapons && item.kind == Sword
    ensures forall item :: item in Allowed(weapons, inv) ==> weapons || item.kind != Sword
    decreases |inv|
  {
    if |inv| > 1 {
      RefusesSwords(weapons, inv[..|inv| - 1], if i < |inv| - 1 then i else 0);
    } else {
      assert inv[..0] == [];
    }
  }
}
