/** Session's data path in place: handleDataPacket and Read over the current key slots and the inbound queue. */
module DataSession {
  import opened Words
  import opened DataChannel
  import D = Delivery

  function Length(bytes: seq<u8>): nat {
    |bytes|
  }

  class Session {
    var primary: DataWrapper?
    var lameDuck: DataWrapper?
    var mustDie: int
    var inbox: D.Inbox<seq<u8>>

    predicate Valid()
      reads this, primary, lameDuck
    {
      primary != null && lameDuck != null ==> primary != lameDuck && primary.window != lameDuck.window
    }

    function LameDuckView(now: int): Option<Wrapper>
      reads this, lameDuck, if lameDuck == null then {} else {lameDuck.window}
    {
      if lameDuck == null || now >= mustDie then None else Some(lameDuck.View())
    }

    /** A datagram for this session: keys tried in order, then the exit notice, then the queue. */
    method HandleDataPacket(packet: Packet, now: int, stopFirst: bool)
      requires Valid()
      modifies this`inbox
      modifies if primary == null then {} else {primary.window}
      modifies if lameDuck == null then {} else {lameDuck.window}
      ensures Valid()
      ensures primary == null ==> inbox == old(inbox) && LameDuckView(now) == old(LameDuckView(now))
      ensures primary != null ==>
        var (p, l, plaintext) := D.TryKeys(old(primary.View()), old(LameDuckView(now)), packet);
        && primary.View() == p
        && LameDuckView(now) == l
        && inbox == if plaintext.None? then old(inbox)
                    else if D.IsExitNotify(plaintext.value) then old(inbox).(closing := true)
                    else D.Offered(old(inbox), plaintext.value, stopFirst)
    {
      if primary == null {
        return;
      }
      var result := primary.OpenPacket(packet);
      if !result.Plain? {
        if result.Ping? {
          return;
        }
        if lameDuck == null || now >= mustDie {
          return;
        }
        result := lameDuck.OpenPacket(packet);
        if !result.Plain? {
          return;
        }
      }
      if D.IsExitNotify(result.plaintext) {
        inbox := inbox.(closing := true);
        return;
      }
      if |inbox.queue| < inbox.capacity && !(inbox.closing && stopFirst) {
        inbox := inbox.(queue := inbox.queue + [result.plaintext]);
      }
    }

    method Read(room: nat, stopFirst: bool) returns (taken: D.Taken<seq<u8>>)
      modifies this`inbox
      ensures (inbox, taken) == D.Take(old(inbox), Length, room, stopFirst)
    {
      if inbox.pending.Some? {
        var packet := inbox.pending.value;
        if room < |packet| {
          return D.TooSmall;
        }
        inbox := inbox.(pending := None);
        return D.Got(packet);
      }
      if inbox.closing && (stopFirst || inbox.queue == []) {
        return D.Eof;
      }
      if inbox.queue == [] {
        return D.Blocks;
      }
      var packet := inbox.queue[0];
      inbox := inbox.(queue := inbox.queue[1..]);
      if room < |packet| {
        inbox := inbox.(pending := Some(packet));
        return D.TooSmall;
      }
      return D.Got(packet);
    }
  }
}
