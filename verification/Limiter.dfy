/** The per-id concurrency limiter: semaphores made on first use and dropped with their last user. */
module Limiter {

  /** A consumer: permits out, and users counted. */
  datatype Cell = Cell(held: int, usage: int)

  /** The consumers stored by id, and every consumer ever made, by reference. */
  datatype Shelf<!R> = Shelf(store: map<string, R>, cells: map<R, Cell>)

  ghost predicate Linked<R>(s: Shelf<R>) {
    forall id <- s.store :: s.store[id] in s.cells
  }

  function Taken<R>(s: Shelf<R>, id: string, made: R): Shelf<R>
    requires id in s.store ==> s.store[id] in s.cells
  {
    if id in s.store
    then s.(cells := s.cells[s.store[id] := s.cells[s.store[id]].(usage := s.cells[s.store[id]].usage + 1)])
    else Shelf(s.store[id := made], s.cells[made := Cell(0, 1)])
  }

  function PutBack<R>(s: Shelf<R>, id: string): Shelf<R>
    requires id in s.store ==> s.store[id] in s.cells
  {
    if id !in s.store then s
    else
      var c := s.store[id];
      var left := s.cells[c].usage - 1;
      Shelf(if left == 0 then s.store - {id} else s.store, s.cells[c := s.cells[c].(usage := left)])
  }

  function Permits<R>(s: Shelf<R>, c: R, n: int): Shelf<R>
    requires c in s.cells
  {
    s.(cells := s.cells[c := s.cells[c].(held := s.cells[c].held + n)])
  }

  class Consumer {
    var held: int
    var usage: int

    constructor ()
      ensures held == 0 && usage == 0
    {
      held, usage := 0, 0;
    }
  }

  class Blocker {
    const maxConn: int
    var consumers: map<string, Consumer>
    ghost var made: set<Consumer>

    ghost predicate Valid()
      reads this
    {
      forall id <- consumers :: consumers[id] in made
    }

    ghost function View(): (s: Shelf<Consumer>)
      reads this, made
      ensures s.store == consumers && s.cells.Keys == made
      ensures forall c <- made :: s.cells[c] == Cell(c.held, c.usage)
    {
      Shelf(consumers, map c | c in made :: Cell(c.held, c.usage))
    }

    constructor (maxConn: int)
      ensures Valid() && this.maxConn == maxConn && View() == Shelf(map[], map[])
    {
      this.maxConn := maxConn;
      consumers, made := map[], {};
    }

    method Take(id: string) returns (c: Consumer)
      requires Valid()
      modifies this, made
      ensures Valid() && made == old(made) + {c} && (if id in old(consumers) then c == old(consumers)[id] else fresh(c))
      ensures View() == Taken(old(View()), id, c) && consumers[id] == c
    {
      if id in consumers {
        c := consumers[id];
      } else {
        c := new Consumer();
        consumers := consumers[id := c];
      }
      made := made + {c};
      c.usage := c.usage + 1;
    }

    method Put(id: string)
      requires Valid()
      modifies this, made
      ensures Valid() && made == old(made) && View() == PutBack(old(View()), id)
    {
      if id !in consumers {
        return;
      }
      var c := consumers[id];
      c.usage := c.usage - 1;
      if c.usage == 0 {
        consumers := consumers - {id};
      }
    }

    /** With the outcome of waiting for a permit given: true, one was free; false, the context ended. */
    method Acquire(id: string, granted: bool) returns (c: Consumer, ok: bool)
      requires Valid()
      modifies this, made
      ensures Valid() && made == old(made) + {c} && (if id in old(consumers) then c == old(consumers)[id] else fresh(c))
      ensures ok == granted
      ensures var s := Taken(old(View()), id, c); View() == if granted then Permits(s, c, 1) else PutBack(s, id)
    {
      c := Take(id);
      ok := granted;
      if granted {
        c.held := c.held + 1;
      } else {
        Put(id);
      }
    }

    method Release(id: string, c: Consumer)
      requires Valid() && c in made
      modifies this, made
      ensures Valid() && made == old(made) && View() == PutBack(Permits(old(View()), c, -1), id)
    {
      c.held := c.held - 1;
      Put(id);
    }
  }
}
