/**
  A game list in the user interface and the views that listen to it.

  A list keeps the set of its listeners; registering a listener also points
  the listener back at the list, and the list tells every registered
  listener when its contents, the game information or an install status
  change. Each listener counts the notifications it has received, which is
  what the views' callbacks are seen to do here.
*/
module GameLists {

  /** A game as a list shows it. */
  datatype Game = Game(idname: string)

  class Listener {
    /** The list this listener was last registered with, if any. */
    var list: GameList?
    var listChanges: nat
    var infoChanges: nat
    var statusChanges: nat

    constructor ()
      ensures list == null && listChanges == 0 && infoChanges == 0 && statusChanges == 0
    {
      list := null;
      listChanges, infoChanges, statusChanges := 0, 0, 0;
    }

    /** `gameListChanged()`. */
    method GameListChanged()
      modifies this
      ensures listChanges == old(listChanges) + 1
      ensures infoChanges == old(infoChanges) && statusChanges == old(statusChanges) && list == old(list)
    {
      listChanges := listChanges + 1;
    }

    /** `gameInfoChanged()`. */
    method GameInfoChanged()
      modifies this
      ensures infoChanges == old(infoChanges) + 1
      ensures listChanges == old(listChanges) && statusChanges == old(statusChanges) && list == old(list)
    {
      infoChanges := infoChanges + 1;
    }

    /** `gameStatusChanged()`. */
    method GameStatusChanged()
      modifies this
      ensures statusChanges == old(statusChanges) + 1
      ensures listChanges == old(listChanges) && infoChanges == old(infoChanges) && list == old(list)
    {
      statusChanges := statusChanges + 1;
    }
  }

  class GameList {
    var listeners: set<Listener>
    /** The games the list shows, in the order it shows them. */
    var games: seq<Game>

    constructor (games: seq<Game>)
      ensures listeners == {} && this.games == games
    {
      listeners := {};
      this.games := games;
    }

    /** `size()`. */
    function Size(): nat
      reads this
    {
      |games|
    }

    /** `addListener(p)`: `p` is registered, once however often it is
        added, and points back at this list. */
    method AddListener(p: Listener)
      modifies this, p
      ensures listeners == old(listeners) + {p} && p in listeners
      ensures old(p in listeners) ==> listeners == old(listeners)
      ensures p.list == this
      ensures games == old(games)
      ensures p.listChanges == old(p.listChanges) && p.infoChanges == old(p.infoChanges)
      ensures p.statusChanges == old(p.statusChanges)
    {
      listeners := listeners + {p};
      p.list := this;
    }

    /** `removeListener(p)`: `p` is no longer registered and points at no
        list; every other listener stays registered. */
    method RemoveListener(p: Listener)
      modifies this, p
      ensures listeners == old(listeners) - {p} && p !in listeners
      ensures forall l | l in old(listeners) && l != p :: l in listeners
      ensures p.list == null
      ensures games == old(games)
      ensures p.listChanges == old(p.listChanges) && p.infoChanges == old(p.infoChanges)
      ensures p.statusChanges == old(p.statusChanges)
    {
      p.list := null;
      listeners := listeners - {p};
    }

    /** `notifyListChange()`: every registered listener hears of it exactly
        once; nothing else changes. */
    method NotifyListChange()
      modifies listeners
      ensures forall l | l in listeners ::
                && l.listChanges == old(l.listChanges) + 1
                && l.infoChanges == old(l.infoChanges) && l.statusChanges == old(l.statusChanges)
                && l.list == old(l.list)
    {
      var todo := listeners;
      while todo != {}
        invariant todo <= listeners
        invariant forall l | l in listeners ::
                    && l.listChanges == old(l.listChanges) + (if l in todo then 0 else 1)
                    && l.infoChanges == old(l.infoChanges) && l.statusChanges == old(l.statusChanges)
                    && l.list == old(l.list)
        decreases |todo|
      {
        var l :| l in todo;
        l.GameListChanged();
        todo := todo - {l};
      }
    }

    /** `notifyInfoChange()`: every registered listener hears of it exactly
        once; nothing else changes. */
    method NotifyInfoChange()
      modifies listeners
      ensures forall l | l in listeners ::
                && l.infoChanges == old(l.infoChanges) + 1
                && l.listChanges == old(l.listChanges) && l.statusChanges == old(l.statusChanges)
                && l.list == old(l.list)
    {
      var todo := listeners;
      while todo != {}
        invariant todo <= listeners
        invariant forall l | l in listeners ::
                    && l.infoChanges == old(l.infoChanges) + (if l in todo then 0 else 1)
                    && l.listChanges == old(l.listChanges) && l.statusChanges == old(l.statusChanges)
                    && l.list == old(l.list)
        decreases |todo|
      {
        var l :| l in todo;
        l.GameInfoChanged();
        todo := todo - {l};
      }
    }

    /** `notifyStatusChange()`: every registered listener hears of it
        exactly once; nothing else changes. */
    method NotifyStatusChange()
      modifies listeners
      ensures forall l | l in listeners ::
                && l.statusChanges == old(l.statusChanges) + 1
                && l.listChanges == old(l.listChanges) && l.infoChanges == old(l.infoChanges)
                && l.list == old(l.list)
    {
      var todo := listeners;
      while todo != {}
        invariant todo <= listeners
        invariant forall l | l in listeners ::
                    && l.statusChanges == old(l.statusChanges) + (if l in todo then 0 else 1)
                    && l.listChanges == old(l.listChanges) && l.infoChanges == old(l.infoChanges)
                    && l.list == old(l.list)
        decreases |todo|
      {
        var l :| l in todo;
        l.GameStatusChanged();
        todo := todo - {l};
      }
    }

    /** `setTags(tags)`: tag filtering does nothing yet. */
    method SetTags(tags: string)
      ensures listeners == old(listeners) && games == old(games)
    {
    }

    /** `clearTags()`, which is `setTags("")`. */
    method ClearTags()
      ensures listeners == old(listeners) && games == old(games)
    {
      SetTags("");
    }

    /** `edit(i)`: the game at position `i`, which must be one of the
        list's positions. */
    method Edit(i: int) returns (g: Game)
      requires 0 <= i < Size()
      ensures g == games[i] && g in games
    {
      g := games[i];
    }
  }

  /** Registering a listener that was not registered and removing it again
      leaves the list's set of listeners as it was. */
  method AddThenRemove(list: GameList, p: Listener)
    requires p !in list.listeners
    modifies list, p
    ensures list.listeners == old(list.listeners) && p.list == null
  {
    list.AddListener(p);
    list.RemoveListener(p);
  }
}
