/** The session list of session.c on the heap: a ring of links that enclose sessions,
    looked up, extended, and cut while events are dispatched. */
module Registry {
  import opened Options
  import opened Ring
  import opened Sequences
  import opened Sessions
  import opened Packet
  import M = SessionModel
  import Relay

  // Valid sessions that share nothing and own parts of `content` only.
  ghost predicate Members(ss: seq<Session>, content: set<object>)
    reads content
  {
    && (forall i :: 0 <= i < |ss| ==> ss[i] in content && ss[i] in ss[i].Repr && ss[i].Repr <= content && ss[i].Valid())
    && (forall i, k :: 0 <= i < k < |ss| ==> ss[i].Repr !! ss[k].Repr)
  }

  ghost function ViewsOf(ss: seq<Session>, content: set<object>): (v: seq<M.Session>)
    requires Members(ss, content)
    reads content
    ensures |v| == |ss| && forall i :: 0 <= i < |v| ==> v[i] == ss[i].View()
  {
    if ss == [] then [] else
      assert forall i :: 0 <= i < |ss| - 1 ==> ss[1..][i] == ss[i + 1];
      [ss[0].View()] + ViewsOf(ss[1..], content)
  }

  lemma OwnsItself(s: Session)
    requires s.Valid()
    ensures s in s.Repr
  {
  }

  // A session that owns nothing of `content` enters at position i.
  lemma Joined(s: Session, ss: seq<Session>, content: set<object>, i: nat)
    requires Members(ss, content) && i <= |ss|
    requires s.Repr !! content && s.Valid()
    ensures Members(ss[..i] + [s] + ss[i..], content + s.Repr)
    ensures ViewsOf(ss[..i] + [s] + ss[i..], content + s.Repr)
         == ViewsOf(ss, content)[..i] + [s.View()] + ViewsOf(ss, content)[i..]
  {
    hide Session.Valid, Session.View, ViewsOf;
    OwnsItself(s);
    var all := ss[..i] + [s] + ss[i..];
    assert forall k :: 0 <= k < |all| ==> all[k] == if k < i then ss[k] else if k == i then s else ss[k - 1];
  }

  // The session at position i leaves with what it owns.
  lemma Parted(ss: seq<Session>, content: set<object>, i: nat)
    requires Members(ss, content) && i < |ss|
    ensures ss[i].Repr <= content && ss[i].Valid() && ViewsOf(ss, content)[i] == ss[i].View()
    ensures Members(Remove(ss, i), content - ss[i].Repr)
    ensures ViewsOf(Remove(ss, i), content - ss[i].Repr) == Remove(ViewsOf(ss, content), i)
  {
    hide Session.Valid, Session.View, ViewsOf;
    var rest := Remove(ss, i);
    assert forall k :: 0 <= k < |rest| ==> rest[k] == if k < i then ss[k] else ss[k + 1];
  }

  // It comes back changed; `before` are the views from before it left.
  lemma Returned(ss: seq<Session>, content: set<object>, i: nat, before: seq<M.Session>)
    requires i < |ss| == |before| && Members(Remove(ss, i), content)
    requires ss[i].Repr !! content && ss[i].Valid()
    requires ViewsOf(Remove(ss, i), content) == Remove(before, i)
    ensures Members(ss, content + ss[i].Repr)
    ensures ViewsOf(ss, content + ss[i].Repr) == before[i := ss[i].View()]
  {
    hide Session.Valid, Session.View, ViewsOf;
    var rest := Remove(ss, i);
    Joined(ss[i], rest, content, i);
    assert rest[..i] + [ss[i]] + rest[i..] == ss;
  }

  lemma NoneNegative(v: seq<M.Session>, fd: int)
    requires fd < 0
    ensures Relay.Find(v, fd) == |v|
  {
  }

  lemma NothingSent(script: Script, written: string)
    ensures M.Transmits(None, script, written, script, written)
  {
  }

  lemma NoMembers()
    ensures Members([], {}) && ViewsOf([], {}) == []
  {
  }

  ghost predicate Encloses(ls: seq<Link<Session>>, ss: seq<Session>) {
    |ls| == |ss| && forall i :: 0 <= i < |ls| ==> ls[i].elem == Some(ss[i])
  }

  ghost predicate Within(head: Link<Session>, ls: seq<Link<Session>>, spine: set<object>) {
    head in spine && forall i :: 0 <= i < |ls| ==> ls[i] in spine
  }

  lemma Neighbours(head: Link<Session>, ls: seq<Link<Session>>, spine: set<object>, i: nat)
    requires IsRing(head, ls) && Within(head, ls, spine) && i < |ls|
    ensures ls[i].n in spine && ls[i].p in spine
  {
    assert ls[i].n == if i + 1 < |ls| then ls[i + 1] else head;
    assert ls[i].p == if i > 0 then ls[i - 1] else head;
  }

  lemma Taken(head: Link<Session>, ls: seq<Link<Session>>, ss: seq<Session>, spine: set<object>, i: nat)
    requires Within(head, ls, spine) && Encloses(ls, ss) && i < |ls|
    ensures head in spine && i < |ss|
    ensures Within(head, Remove(ls, i), spine) && Encloses(Remove(ls, i), Remove(ss, i))
  {
  }

  lemma Put(head: Link<Session>, item: Link<Session>, ls: seq<Link<Session>>, s: Session, ss: seq<Session>,
            spine: set<object>)
    requires Within(head, ls, spine) && Encloses(ls, ss) && item !in spine && item.elem == Some(s)
    ensures item != head && item !in ls
    ensures Within(head, [item] + ls, spine + {item}) && Encloses([item] + ls, [s] + ss)
  {
  }

  lemma IsEnclosed(ls: seq<Link<Session>>, ss: seq<Session>, i: nat)
    requires Encloses(ls, ss) && i < |ls|
    ensures i < |ss| && ls[i].elem == Some(ss[i])
  {
  }

  lemma First(head: Link<Session>, ls: seq<Link<Session>>, spine: set<object>)
    requires IsRing(head, ls) && Within(head, ls, spine)
    ensures head.n in spine
  {
    assert head.n == if ls == [] then head else ls[0];
  }

  class SessionList {
    const head: Link<Session>
    ghost var links: seq<Link<Session>>
    ghost var sessions: seq<Session>
    ghost var spine: set<object>    // this, the head and the links
    ghost var content: set<object>  // what the sessions own

    ghost predicate Valid()
      reads this, spine, content
    {
      && this in spine && Within(head, links, spine) && spine !! content
      && IsRing(head, links) && Encloses(links, sessions) && Members(sessions, content)
    }

    ghost function Views(): (v: seq<M.Session>)
      requires Valid()
      reads this, spine, content
      ensures |v| == |sessions| && forall i :: 0 <= i < |v| ==> v[i] == sessions[i].View()
    {
      ViewsOf(sessions, content)
    }

    constructor ()
      ensures Valid() && fresh(spine) && content == {} && Views() == []
    {
      var h := new Link<Session>(None);
      head := h;
      links, sessions, spine, content := [], [], {this, h}, {};
    }

    // get_session_from_list
    method GetSession(fd: int) returns (item: Link?<Session>)
      requires Valid()
      ensures var i := Relay.Find(Views(), fd);
              if i < |links| then item == links[i] else item == null
    {
      hide Session.Valid, Session.View, ViewsOf, M.InSession, M.Owned, Relay.Find;
      if fd < 0 {
        NoneNegative(Views(), fd);
        return null;
      }
      var current := head.n;
      ghost var i := 0;
      while current != head
        invariant 0 <= i <= |links|
        invariant current == if i < |links| then links[i] else head
        invariant forall k :: 0 <= k < i ==> !M.InSession(Views()[k], fd)
        decreases |links| - i
      {
        if current.elem.value.IsSocketInSession(fd) {
          return current;
        }
        current := current.n;
        i := i + 1;
      }
      item := null;
    }

    // add_session_to_list, given the descriptor accepted from the client and the one
    // connected to the server.
    method AddSession(accepted: Option<int>, connected: Option<int>) returns (added: bool)
      requires Valid()
      modifies spine
      ensures Valid() && fresh(spine - old(spine)) && fresh(content - old(content))
      ensures added == (accepted.Some? && connected.Some?)
      ensures Views() == (if added then [M.NewSession(accepted.value, connected.value)] else []) + old(Views())
      ensures !added ==> links == old(links)
    {
      hide Session.Valid, Session.View, Members, ViewsOf, IsRing;
      added := accepted.Some? && connected.Some?;
      if added {
        var session := new Session(accepted.value, connected.value);
        OwnsItself(session);
        var item := new Link<Session>(Some(session));
        Insert(item, session);
      }
    }

    // The LIST_ADD at its end.
    method Insert(item: Link<Session>, session: Session)
      requires Valid() && session in session.Repr && session.Valid() && session.Repr !! spine + content
      requires item !in spine + content + session.Repr && item.elem == Some(session)
      modifies spine, item
      ensures Valid() && spine == old(spine) + {item} && content == old(content) + session.Repr
      ensures Views() == [old(session.View())] + old(Views())
    {
      hide Session.Valid, Session.View, Members, ViewsOf, IsRing, Within, Encloses;
      First(head, links, spine);
      Put(head, item, links, session, sessions, spine);
      Add(head, item, links);
      Joined(session, sessions, content, 0);
      assert sessions[..0] + [session] + sessions[0..] == [session] + sessions;
      links, spine, content := [item] + links, spine + {item}, content + session.Repr;
      sessions := [session] + sessions;
    }

    // session_remove_from_list, with the descriptors it closes
    method RemoveSession(item: Link<Session>, ghost i: nat) returns (closed: set<int>)
      requires Valid() && i < |links| && links[i] == item
      modifies spine
      ensures Valid() && spine == old(spine) && content == old(content) - old(sessions[i].Repr)
      ensures links == Remove(old(links), i) && sessions == Remove(old(sessions), i)
      ensures Views() == Remove(old(Views()), i) && closed == M.ClosedOnRemoval(old(Views())[i])
    {
      hide Session.Valid, Session.View, Members, ViewsOf, IsRing, Within, Encloses, Remove, M.ClosedOnRemoval;
      IsEnclosed(links, sessions, i);
      Parted(sessions, content, i);
      closed := item.elem.value.FreePeers();
      Detach(item, i);
    }

    method Detach(item: Link<Session>, ghost i: nat)
      requires Valid() && i < |links| && links[i] == item
      modifies spine
      ensures Valid() && spine == old(spine) && content == old(content) - old(sessions[i].Repr)
      ensures links == Remove(old(links), i) && sessions == Remove(old(sessions), i)
      ensures Views() == Remove(old(Views()), i)
    {
      hide Session.Valid, Session.View, Members, ViewsOf, IsRing, Within, Encloses, Remove;
      Neighbours(head, links, spine, i);
      Taken(head, links, sessions, spine, i);
      Unlink(item, head, links, i);
      links := Remove(links, i);
      Parted(sessions, content, i);
      content := content - sessions[i].Repr;
      sessions := Remove(sessions, i);
    }

    // The teardown of option.c: every session is removed while the list is walked, and
    // its peers are freed.
    method DropAll() returns (visited: seq<Link<Session>>, closed: set<int>)
      requires Valid()
      modifies spine
      ensures Valid() && links == [] && Views() == [] && Encloses(visited, old(sessions))
      ensures forall fd :: fd in closed <==>
                exists i :: 0 <= i < |old(Views())| && fd in M.ClosedOnRemoval(old(Views())[i])
    {
      hide Session.Valid, Session.View, Members, ViewsOf, M.ClosedOnRemoval;
      ghost var views := Views();
      visited := Ring.DropAll(head, links);
      closed := {};
      var i := 0;
      while i < |visited|
        invariant i <= |visited| && Encloses(visited, sessions) && |views| == |visited|
        invariant Members(sessions, content) && ViewsOf(sessions, content) == views
        invariant sessions == old(sessions) && content == old(content) && spine == old(spine) && IsRing(head, [])
        invariant closed == M.ClosedByAll(views[..i])
      {
        Parted(sessions, content, i);
        var c := visited[i].elem.value.FreePeers();
        closed := closed + c;
        assert views[..i + 1][..i] == views[..i] && views[..i + 1][i] == views[i];
        i := i + 1;
      }
      assert views[..i] == views;
      forall fd ensures fd in closed <==> exists i :: 0 <= i < |views| && fd in M.ClosedOnRemoval(views[i]) {
        M.ClosedByAny(views, fd);
      }
      links, sessions, content := [], [], {};
      NoMembers();
    }

    // Session i handles a readable descriptor.
    method Deliver(item: Link<Session>, ghost i: nat, fd: int, buffer: array<char>, receivedBytes: int,
                   answers: M.Answers)
      returns (kept: bool)
      requires Valid() && i < |links| && links[i] == item
      requires buffer !in spine + content && ReceiveBuffer(buffer, receivedBytes)
      requires M.GoodNet(answers.net)
      modifies `content, content, buffer
      ensures Valid() && fresh(content - old(content))
      ensures var r := M.Readable(old(Views())[i], fd, InputOf(old(buffer[..]), receivedBytes), answers);
              kept == r.Some? && Views() == old(Views())[i := Views()[i]] && (kept ==> Views()[i] == r.value)
    {
      hide Session.Valid, Session.View, Members, ViewsOf, M.Readable, Remove, IsRing;
      var session := item.elem.value;
      Parted(sessions, content, i);
      content := content - session.Repr;
      kept := session.Readable(fd, buffer, receivedBytes, answers);
      Returned(sessions, content, i, old(Views()));
      content := content + session.Repr;
    }

    // A readable descriptor in session_polling
    method ReadEvent(fd: int, buffer: array<char>, receivedBytes: int, answers: M.Answers, ghost p: Relay.Proxy)
      requires Valid() && buffer !in spine + content && ReceiveBuffer(buffer, receivedBytes)
      requires M.GoodNet(answers.net) && p.sessions == Views()
      modifies spine, content, buffer
      ensures Valid() && spine == old(spine) && fresh(content - old(content))
      ensures Views() == Relay.Do(p, Relay.ReadEvent(fd, InputOf(old(buffer[..]), receivedBytes), answers)).sessions
    {
      hide Session.Valid, Session.View, Members, ViewsOf, M.Readable, Relay.Find, IsRing;
      var item := GetSession(fd);
      if item == null {
        return;
      }
      ghost var i := Relay.Find(Views(), fd);
      var kept := Deliver(item, i, fd, buffer, receivedBytes, answers);
      if !kept {
        var _ := RemoveSession(item, i);
      }
    }

    // A writable descriptor in session_polling
    method WriteEvent(fd: int, kernel: Kernel, ghost p: Relay.Proxy)
      requires Valid() && kernel !in spine + content && p.sessions == Views()
      modifies `content, content, kernel
      ensures Valid() && fresh(content - old(content))
      ensures Views() == Relay.Do(p, Relay.WriteEvent(fd, old(kernel.script))).sessions
      ensures var i := Relay.Find(old(Views()), fd);
              M.Transmits(if i < |old(Views())| then M.Picked(old(Views())[i], fd) else None,
                          old(kernel.script), old(kernel.written), kernel.script, kernel.written)
    {
      hide Session.Valid, Session.View, Members, ViewsOf, Relay.Find, Remove, IsRing;
      hide M.WritePacket, M.Transmits, M.Picked;
      var item := GetSession(fd);
      if item == null {
        NothingSent(kernel.script, kernel.written);
        return;
      }
      ghost var i := Relay.Find(Views(), fd);
      var session := item.elem.value;
      Parted(sessions, content, i);
      content := content - session.Repr;
      session.WritePacket(fd, kernel);
      Returned(sessions, content, i, old(Views()));
      content := content + session.Repr;
    }
  }
}
