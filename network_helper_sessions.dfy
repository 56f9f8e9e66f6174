/** NetworkHelper's `SessionManager` and `SessionParticipant` base classes: the address books
    the discovery strategies feed. Each event raised is appended to a log field. */
module NetworkHelperSessions {
  import opened Common
  import opened PeerInfo
  import opened AddressBook

  class SessionManager {
    /** `Participants`: generated id -> participant descriptor. */
    var participants: Book
    /** The `ParticipantConnected` events raised so far, oldest first. */
    var connected: seq<Announcement>

    ghost predicate Valid()
      reads this
    {
      Unique(participants)
    }

    constructor()
      ensures Valid() && participants == map[] && connected == []
    {
      participants := map[];
      connected := [];
    }

    /** `RemoveParticipant(id)`: `Dictionary.Remove`. */
    method RemoveParticipant(id: Guid) returns (removed: bool)
      requires Valid()
      modifies this
      ensures Valid()
      ensures (participants, removed) == Unregister(old(participants), id)
      ensures connected == old(connected)
    {
      removed := id in participants;
      participants := participants - {id};
    }

    /** `AddParticipant(participant, message)`, with `freshId` the value of `Guid.NewGuid()`
        (which `Dictionary.Add` requires to be unused). */
    method AddParticipant(participant: Info, message: Option<string>, freshId: Guid)
      requires Valid() && freshId !in participants
      modifies this
      ensures Valid()
      ensures var reg := Register(old(participants), participant, freshId, message);
              participants == reg.book && connected == old(connected) + EventsOf(reg)
    {
      if !ContainsValue(participants, participant) {
        participants := participants[freshId := participant];
        connected := connected + [Announcement(freshId, message)];
      }
    }
  }

  class SessionParticipant {
    /** `Managers` (a ConcurrentDictionary): generated id -> manager descriptor. */
    var managers: Book
    /** The `ManagerFound` events raised so far, oldest first. */
    var found: seq<Announcement>

    ghost predicate Valid()
      reads this
    {
      Unique(managers)
    }

    constructor()
      ensures Valid() && managers == map[] && found == []
    {
      managers := map[];
      found := [];
    }

    /** `RemoveManager(id)`: `TryRemove` reports whether the id was present. */
    method RemoveManager(id: Guid) returns (removed: bool)
      requires Valid()
      modifies this
      ensures Valid()
      ensures (managers, removed) == Unregister(old(managers), id)
      ensures found == old(found)
    {
      removed := id in managers;
      managers := managers - {id};
    }

    /** `AddManager(manager, message)`: `TryAdd` under the generated id, and `ManagerFound`
        only when it succeeded. */
    method AddManager(manager: Info, message: Option<string>, freshId: Guid)
      requires Valid()
      modifies this
      ensures Valid()
      ensures var reg := Register(old(managers), manager, freshId, message);
              managers == reg.book && found == old(found) + EventsOf(reg)
    {
      if !ContainsValue(managers, manager) {
        var isAdded := freshId !in managers;
        if isAdded {
          managers := managers[freshId := manager];
          found := found + [Announcement(freshId, message)];
        }
      }
    }
  }
}
