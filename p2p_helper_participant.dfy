/** P2PHelper's `SessionParticipant` base class: like NetworkHelper's, but over a plain
    `Dictionary` whose `Add` is not allowed to meet a used id. */
module P2PHelperParticipant {
  import opened Common
  import opened PeerInfo
  import opened AddressBook

  class SessionParticipant {
    /** `ListenerMessage`: sent when connecting to a manager. */
    var listenerMessage: Option<string>
    /** `Managers`: generated id -> manager descriptor. */
    var managers: Book
    /** The `ManagerFound` events raised so far, oldest first. */
    var found: seq<Announcement>

    ghost predicate Valid()
      reads this
    {
      Unique(managers)
    }

    constructor()
      ensures Valid() && listenerMessage == None && managers == map[] && found == []
    {
      listenerMessage := None;
      managers := map[];
      found := [];
    }

    /** `RemoveManager(id)`: `Dictionary.Remove`. */
    method RemoveManager(id: Guid) returns (removed: bool)
      requires Valid()
      modifies this
      ensures Valid()
      ensures (managers, removed) == Unregister(old(managers), id)
      ensures found == old(found) && listenerMessage == old(listenerMessage)
    {
      removed := id in managers;
      managers := managers - {id};
    }

    /** `AddManager(manager, message)` with `freshId` the value of `Guid.NewGuid()`. */
    method AddManager(manager: Info, message: Option<string>, freshId: Guid)
      requires Valid() && freshId !in managers
      modifies this
      ensures Valid()
      ensures var reg := Register(old(managers), manager, freshId, message);
              managers == reg.book && found == old(found) + EventsOf(reg)
      ensures listenerMessage == old(listenerMessage)
    {
      if !ContainsValue(managers, manager) {
        managers := managers[freshId := manager];
        found := found + [Announcement(freshId, message)];
      }
    }
  }
}
