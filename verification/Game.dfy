/** The game: the frame's actions on its objects, and the ledger that every run since a restart keeps. */
module Game {
  import opened Wrappers
  import opened GameRules

  class Player {
    var x: int
    var y: int
    const width: nat
    const height: nat
    var health: int
    var power: nat
    var spell: nat
    var isShoot: bool

    function View(): Pilot
      reads this
    {
      Pilot(x, y, health, power, spell, isShoot)
    }

    constructor (width: nat, height: nat)
      ensures View() == NEW_PILOT && this.width == width && this.height == height
    {
      this.width, this.height := width, height;
      x, y, health, power, spell, isShoot := 200, 500, 3, 0, 3, false;
    }

    method Hit(f: Flying) returns (hit: bool)
      ensures hit <==> Touches(x, y, width, height, f)
    {
      var x1 := f.x - width * 2 / 3 + 3;
      var x2 := f.x + width / 3 + f.width - 3;
      var y1 := f.y - height * 2 / 3 + 5;
      var y2 := f.y + height / 3 + f.height - 5;
      var playerX := x + width / 2;
      var playerY := y + height / 2;
      return playerX > x1 && playerX < x2 && playerY > y1 && playerY < y2;
    }

    function Shot(dx: int, offset: int): Flying
      reads this
    {
      Flying(x + dx, y - 20, BULLET, 0, 0, 0, 0, 15, offset)
    }

    /** The bullets of one shot, their number by power; none if the trigger is not held. */
    method Shoot() returns (bs: seq<Flying>)
      modifies this`power
      ensures !isShoot ==> bs == [] && power == old(power)
      ensures isShoot ==> power == (if old(power) > 100 then 100 else old(power)) && bs == Volley(x, y, width / 4, power)
    {
      if !isShoot { return []; }
      var step := width / 4;
      if power > 100 { power := 100; }
      if power < 10 {
        bs := [Shot(2 * step - 7, 0)];
      } else if power < 30 {
        bs := [Shot(step - 7, 0), Shot(3 * step - 7, 0)];
      } else if power < 60 {
        bs := [Shot(step - 7, -1), Shot(2 * step - 7, 0), Shot(3 * step - 7, 1)];
      } else {
        bs := [Shot(step - 7, -2), Shot(2 * step - 7, -1), Shot(3 * step - 7, 1), Shot(4 * step - 7, 2)];
      }
      assert bs == Volley(x, y, width / 4, power);
    }

    method Boom() returns (b: Flying)
      ensures b == BoomFrom(x, y, width / 4)
    {
      var step := width / 4;
      b := Flying(x + 2 * step - 30, y - 20, BOOM, 0, 0, 0, 0, 6, 0);
    }

    method Death()
      modifies this
      ensures View() == Pilot(200, 500, old(health) - 1, old(power) / 2, 3, old(isShoot))
    {
      x, y, health, spell, power := 200, 500, health - 1, 3, power / 2;
    }

    /** Keeps the player on the field. */
    method Clamp()
      modifies this`x, this`y
      ensures View() == old(View()).(x := Clamped(old(x), 3, 395), y := Clamped(old(y), 0, 540))
    {
      if x < 3 { x := 3; } else if x >= 395 { x := 395; }
      if y < 0 { y := 0; } else if y >= 540 { y := 540; }
    }
  }

  class Game {
    var objects: seq<Flying>
    var bullets: seq<Flying>
    var player: Player
    var state: Screen
    var score: int
    var shootIndex: int

    // The history since the last restart.
    ghost var spawned: nat
    ghost var killed: seq<Flying>
    ghost var escaped: nat
    ghost var cleared: nat
    ghost var deaths: nat
    ghost var forfeited: nat

    function View(): World
      reads this, player
    {
      World(objects, bullets, player.View(), state, score, shootIndex)
    }

    /** The ledger: every enemy that was spawned is alive, was killed and paid for, has escaped or was cleared by a
        death; the score is what was paid; and every life is accounted for, those cut off by painting included. */
    ghost predicate Ledger()
      reads this, player
    {
      && spawned == |objects| + |killed| + escaped + cleared
      && score == Payouts(killed)
      && player.health == 3 + CountKind(killed, WHITE) - deaths - forfeited
      && (deaths == 0 ==> cleared == 0)
    }

    /** The game is over exactly when the last life is gone. */
    ghost predicate Valid()
      reads this, player
    {
      Ledger() && (if state == Over then player.health == 0 else player.health > 0)
    }

    constructor (width: nat, height: nat)
      ensures Valid() && fresh(player) && View() == World([], [], NEW_PILOT, Ready, 0, 0)
      ensures player.width == width && player.height == height
    {
      player := new Player(width, height);
      objects, bullets, state, score, shootIndex := [], [], Ready, 0, 0;
      spawned, killed, escaped, cleared, deaths, forfeited := 0, [], 0, 0, 0, 0;
    }

    method SpawnAction(spawn: Option<Flying>)
      modifies this`objects, this`spawned
      ensures objects == old(objects) + SpawnedOne(spawn)
      ensures spawned == old(spawned) + if spawn.Some? then 1 else 0
    {
      if spawn.Some? {
        objects := objects + [spawn.value];
        spawned := spawned + 1;
      }
      assert objects == old(objects) + SpawnedOne(spawn);
    }

    method MoveAction(dx: int, dy: int)
      modifies this`objects, this`bullets, player`x, player`y
      ensures objects == MovedAll(old(objects)) && bullets == MovedAll(old(bullets))
      ensures player.x == old(player.x) + dx && player.y == old(player.y) + dy
    {
      objects := MoveAll(objects);
      bullets := MoveAll(bullets);
      player.x, player.y := player.x + dx, player.y + dy;
    }

    /** Moves what flies: enemies down, bullets and booms up and to the side. */
    static method MoveAll(fs: seq<Flying>) returns (moved: seq<Flying>)
      ensures moved == MovedAll(fs)
    {
      moved := fs;
      var i := 0;
      while i < |moved|
        invariant i <= |moved| == |fs|
        invariant forall k :: 0 <= k < |fs| ==> moved[k] == if k < i then Moved(fs[k]) else fs[k]
      {
        var f := moved[i];
        if f.kind == BULLET || f.kind == BOOM {
          f := f.(x := f.x + f.offset, y := f.y - f.speed);
        } else {
          f := f.(y := f.y + f.speed);
        }
        moved := moved[i := f];
        i := i + 1;
      }
    }

    method ShootAction()
      modifies this`bullets, this`shootIndex, player`power
      ensures shootIndex == old(shootIndex) + 1
      ensures if shootIndex % 10 == 0 && player.isShoot
              then player.power == (if old(player.power) > 100 then 100 else old(player.power))
                   && bullets == old(bullets) + Volley(player.x, player.y, player.width / 4, player.power)
              else bullets == old(bullets) && player.power == old(player.power)
    {
      shootIndex := shootIndex + 1;
      if shootIndex % 10 == 0 {
        var b := player.Shoot();
        bullets := bullets + b;
      }
    }

    method SetBoom()
      modifies this`bullets, player`spell
      ensures if old(player.spell) > 0
              then bullets == old(bullets) + [BoomFrom(player.x, player.y, player.width / 4)]
                   && player.spell == old(player.spell) - 1
              else bullets == old(bullets) && player.spell == old(player.spell)
    {
      if player.spell > 0 {
        var b := player.Boom();
        bullets := bullets + [b];
        player.spell := player.spell - 1;
      }
    }

    /** Whether the bullet flies on; the enemies it hits are updated. */
    method CheckHit(bullet: Flying) returns (flies: bool)
      modifies this`objects
      ensures (objects, flies) == AfterOne(old(objects), bullet)
    {
      var i := 0;
      if bullet.kind == BULLET {
        while i < |objects|
          invariant i <= |objects| && objects == old(objects)
          invariant FirstShot(objects, bullet, 0) == FirstShot(objects, bullet, i)
        {
          if ShotBy(objects[i], bullet) {
            objects := objects[i := Hurt(objects[i])];
            return false;
          }
          i := i + 1;
        }
        return true;
      }
      while i < |objects|
        invariant i <= |objects| == |old(objects)|
        invariant forall k :: 0 <= k < |objects| ==>
                    objects[k] == if k < i then AfterBoom(old(objects), bullet)[k] else old(objects)[k]
      {
        if ShotBy(objects[i], bullet) && objects[i].kind != WHITE { objects := objects[i := objects[i].(health := -1)]; }
        i := i + 1;
      }
      assert objects == AfterBoom(old(objects), bullet);
      return true;
    }

    method HitAction()
      modifies this`objects, this`bullets
      ensures (objects, bullets) == AfterAll(old(objects), old(bullets))
    {
      var b: seq<Flying>, i := [], 0;
      while i < |bullets|
        invariant i <= |bullets| && bullets == old(bullets)
        invariant (objects, b) == AfterAll(old(objects), bullets[..i])
      {
        assert bullets[..i + 1][..i] == bullets[..i];
        var flies := CheckHit(bullets[i]);
        if flies { b := b + [bullets[i]]; }
        i := i + 1;
      }
      assert bullets[..i] == bullets;
      bullets := b;
    }

    /** What killing an enemy brings. */
    method Reward(f: Flying)
      modifies this`score, player`power, player`spell, player`health
      ensures score == old(score) + Payout(f)
      ensures player.power == old(player.power) + if f.kind == RED then 1 else 0
      ensures player.spell == old(player.spell) + if f.kind == BLACK then 1 else 0
      ensures player.health == old(player.health) + if f.kind == WHITE then 1 else 0
    {
      score := score + f.score;
      if f.kind == RED { player.power := player.power + 1; }
      else if f.kind == BLUE { score := score + 10; }
      else if f.kind == BLACK { player.spell := player.spell + 1; }
      else if f.kind == WHITE { player.health := player.health + 1; }
    }

    /** Lets go of the enemies that are out of bounds, and of the dead ones for their reward. */
    method SweepObjects()
      modifies this`objects, this`score, player`power, player`spell, player`health
      ensures objects == Select(old(objects), Stays)
      ensures score == old(score) + Payouts(Select(old(objects), Dies))
      ensures player.health == old(player.health) + CountKind(Select(old(objects), Dies), WHITE)
      ensures player.spell == old(player.spell) + CountKind(Select(old(objects), Dies), BLACK)
      ensures player.power == old(player.power) + CountKind(Select(old(objects), Dies), RED)
    {
      var lives: seq<Flying>, i := [], 0;
      while i < |objects|
        invariant i <= |objects| && lives == Select(objects[..i], Stays)
        invariant score == old(score) + Payouts(Select(objects[..i], Dies))
        invariant player.health == old(player.health) + CountKind(Select(objects[..i], Dies), WHITE)
        invariant player.spell == old(player.spell) + CountKind(Select(objects[..i], Dies), BLACK)
        invariant player.power == old(player.power) + CountKind(Select(objects[..i], Dies), RED)
        modifies this`score, player`power, player`spell, player`health
      {
        var f := objects[i];
        SweepNext(objects, i);
        if !OutOfBounds(f) {
          if f.health >= 0 { lives := lives + [f]; } else { Reward(f); }
        }
        i := i + 1;
      }
      assert objects[..i] == objects;
      objects := lives;
    }

    method SweepBullets()
      modifies this`bullets
      ensures bullets == Select(old(bullets), InBounds)
    {
      var lives: seq<Flying>, i := [], 0;
      while i < |bullets|
        invariant i <= |bullets| && lives == Select(bullets[..i], InBounds)
        modifies {}
      {
        SweepNext(bullets, i);
        if !OutOfBounds(bullets[i]) { lives := lives + [bullets[i]]; }
        i := i + 1;
      }
      assert bullets[..i] == bullets;
      bullets := lives;
    }

    /** The first half of it, with the ledger brought up to date. */
    method SweepAndPay()
      requires Ledger()
      modifies this`objects, this`score, this`killed, this`escaped, player`power, player`spell, player`health
      ensures Ledger() && objects == Select(old(objects), Stays) && score == old(score) + Payouts(Select(old(objects), Dies))
      ensures player.View() == Rewarded(old(player.View()), Select(old(objects), Dies))
      ensures killed == old(killed) + Select(old(objects), Dies)
      ensures escaped == old(escaped) + |Select(old(objects), OutOfBounds)|
    {
      ghost var os, dead := objects, Select(objects, Dies);
      SweepObjects();
      SweepPartitions(os);
      Totals(killed, dead);
      killed, escaped := killed + dead, escaped + |Select(os, OutOfBounds)|;
    }

    method OutOfBoundsAction()
      requires Ledger()
      modifies this`objects, this`bullets, this`score, this`killed, this`escaped
      modifies player`x, player`y, player`power, player`spell, player`health
      ensures Ledger() && View() == Swept(old(View())) && player.health >= old(player.health)
      ensures killed == old(killed) + Select(old(objects), Dies)
      ensures escaped == old(escaped) + |Select(old(objects), OutOfBounds)|
    {
      SweepAndPay();
      SweepBullets();
      player.Clamp();
    }

    /** At most one life is lost, and it takes every enemy on the field with it. */
    method IsGameOver() returns (over: bool)
      requires Ledger()
      modifies this`objects, this`deaths, this`cleared, player
      ensures Ledger() && (over <==> player.health <= 0)
      ensures if old(Touched(View(), player.width, player.height))
              then player.View() == Pilot(200, 500, old(player.health) - 1, old(player.power) / 2, 3, old(player.isShoot))
                   && deaths == old(deaths) + 1 && objects == [] && cleared == old(cleared) + |old(objects)|
              else player.View() == old(player.View()) && deaths == old(deaths) && objects == old(objects)
                   && cleared == old(cleared)
    {
      var i := 0;
      ghost var w, p := View(), player.View();
      while i < |objects|
        invariant objects == [] || (
          && i <= |objects| && objects == old(objects) && cleared == old(cleared) && deaths == old(deaths)
          && (forall k :: 0 <= k < i ==> !Touches(p.x, p.y, player.width, player.height, objects[k]))
          && player.View() == p)
        invariant objects == [] && old(objects) != [] ==>
          && Touched(w, player.width, player.height)
          && player.View() == Pilot(200, 500, p.health - 1, p.power / 2, 3, p.isShoot) && deaths == old(deaths) + 1
          && cleared == old(cleared) + |old(objects)|
        invariant old(objects) == [] ==> unchanged(this) && unchanged(player)
        invariant Ledger()
        decreases |objects| - i
      {
        var obj := objects[i];
        var hit := player.Hit(obj);
        if hit {
          assert obj in w.objects && Touches(p.x, p.y, player.width, player.height, obj);
          player.Death();
          deaths, cleared := deaths + 1, cleared + |objects|;
          objects := [];
        }
        i := i + 1;
      }
      return player.health <= 0;
    }

    method CheckGameOverAction()
      requires Ledger() && player.health > 0 && state == Playing
      modifies this`objects, this`deaths, this`cleared, this`state, player
      ensures Valid() && View() == Clashed(old(View()), player.width, player.height)
      ensures old(deaths) <= deaths <= old(deaths) + 1 && player.health == old(player.health) - (deaths - old(deaths))
      ensures deaths > old(deaths) <==> old(Touched(View(), player.width, player.height))
    {
      var over := IsGameOver();
      if over { state := Over; }
    }

    /** The actions of a frame up to the shots. */
    method Launch(spawn: Option<Flying>, dx: int, dy: int)
      requires Ledger()
      modifies this`objects, this`bullets, this`spawned, this`shootIndex, player`x, player`y, player`power
      ensures Ledger() && state == old(state) && View() == Launched(old(View()), spawn, dx, dy, player.width)
      ensures spawned == old(spawned) + if spawn.Some? then 1 else 0
    {
      SpawnAction(spawn);
      MoveAction(dx, dy);
      ShootAction();
    }

    /** The actions of a frame up to the hits. */
    method Advance(spawn: Option<Flying>, dx: int, dy: int)
      requires Ledger()
      modifies this`objects, this`bullets, this`spawned, this`shootIndex, player`x, player`y, player`power
      ensures Ledger() && state == old(state) && View() == Struck(Launched(old(View()), spawn, dx, dy, player.width))
      ensures spawned == old(spawned) + if spawn.Some? then 1 else 0
    {
      Launch(spawn, dx, dy);
      HitAction();
    }

    /** The actions of a frame after the hits. */
    method Settle()
      requires Ledger() && player.health > 0 && state == Playing
      modifies this`objects, this`bullets, this`score, this`killed, this`escaped, this`deaths, this`cleared, this`state, player
      ensures Valid() && View() == Clashed(Swept(old(View())), player.width, player.height)
      ensures old(deaths) <= deaths <= old(deaths) + 1 && (state == Playing || (state == Over && deaths == old(deaths) + 1))
      ensures player.health >= old(player.health) - 1 && old(killed) <= killed && (deaths > old(deaths) ==> objects == [])
    {
      OutOfBoundsAction();
      CheckGameOverAction();
    }

    /** One firing of the frame timer. */
    method Frame(spawn: Option<Flying>, dx: int, dy: int)
      requires Valid()
      modifies this, player
      ensures Valid() && player == old(player)
      ensures View() == AfterTick(old(View()), spawn, dx, dy, player.width, player.height)
      ensures old(state) != Playing ==> unchanged(this) && unchanged(player)
      ensures old(deaths) <= deaths <= old(deaths) + 1 && (deaths > old(deaths) ==> objects == [])
      ensures player.health >= old(player.health) - 1 && old(killed) <= killed && forfeited == old(forfeited)
      ensures old(state) == Playing ==> spawned == old(spawned) + if spawn.Some? then 1 else 0
      ensures state == old(state) || (old(state) == Playing && state == Over && deaths == old(deaths) + 1)
    {
      if state == Playing {
        Advance(spawn, dx, dy);
        Settle();
      }
    }

    /** Painting writes to the player: health and spells above nine are cut off for good. */
    method PaintScore()
      requires Valid()
      modifies player`health, player`spell, this`forfeited
      ensures Valid() && View() == Painted(old(View()))
      ensures forfeited == old(forfeited) + if old(player.health) > MOST then old(player.health) - MOST else 0
    {
      if player.health > MOST {
        forfeited := forfeited + (player.health - MOST);
        player.health := MOST;
      }
      if player.spell > MOST { player.spell := MOST; }
    }

    /** Escape on the last screen starts over. */
    method Restart()
      requires state == Over
      modifies this
      ensures Valid() && fresh(player) && View() == World([], [], NEW_PILOT, Ready, 0, old(shootIndex))
      ensures player.width == old(player.width) && player.height == old(player.height)
      ensures spawned == 0 && killed == [] && escaped == 0 && cleared == 0 && deaths == 0 && forfeited == 0
    {
      objects, bullets := [], [];
      NewPlayer();
      score, state := 0, Ready;
      spawned, killed, escaped, cleared, deaths, forfeited := 0, [], 0, 0, 0, 0;
    }

    method NewPlayer()
      modifies this`player
      ensures fresh(player) && player.View() == NEW_PILOT
      ensures player.width == old(player.width) && player.height == old(player.height)
    {
      player := new Player(player.width, player.height);
    }

    method KeyPressed(key: Key)
      requires Valid()
      modifies this, player
      ensures Valid() && (player == old(player) || fresh(player))
      ensures View() == AfterKey(old(View()), key, old(player.width))
      ensures player.width == old(player.width) && player.height == old(player.height)
      ensures old(state) == Paused ==> unchanged(this) && unchanged(player)
    {
      if state == Playing {
        if key == Z { player.isShoot := true; }
        if key == X { SetBoom(); }
        if key == Escape { state := Paused; }
      } else if state == Over {
        if key == Escape { Restart(); }
      } else if state == Ready {
        if key == Z { state := Playing; }
      }
    }

    method ReleaseZ()
      requires Valid()
      modifies this`shootIndex, player`isShoot
      ensures Valid() && View() == old(View()).(pilot := old(player.View()).(isShoot := false), shootIndex := 0)
    {
      player.isShoot := false;
      shootIndex := 0;
    }

    /** What one input does. */
    method Handle(input: Input)
      requires Valid()
      modifies this, player
      ensures Valid() && (player == old(player) || fresh(player))
      ensures player.width == old(player.width) && player.height == old(player.height)
      ensures View() == AfterInput(old(View()), input, player.width, player.height)
    {
      match input {
        case Tick(spawn, dx, dy) => Frame(spawn, dx, dy);
        case Paint => PaintScore();
        case Press(key) => KeyPressed(key);
        case ReleaseZ => ReleaseZ();
      }
    }

    /** A whole run: frames, repaints (which may be coalesced) and keys in any order, with any spawns.  Every input does
        what it is for, and the ledger holds throughout. */
    method Play(inputs: seq<Input>)
      requires Valid()
      modifies this, player
      ensures Valid() && View() == AfterInputs(old(View()), inputs, old(player.width), old(player.height))
    {
      var i := 0;
      ghost var w, width, height := View(), player.width, player.height;
      assert inputs[..0] == [];
      while i < |inputs|
        invariant i <= |inputs| && Valid() && (player == old(player) || fresh(player))
        invariant player.width == width && player.height == height && View() == AfterInputs(w, inputs[..i], width, height)
      {
        assert inputs[..i + 1][..i] == inputs[..i];
        Handle(inputs[i]);
        i := i + 1;
      }
      assert inputs[..i] == inputs;
    }
  }
}
