/** The kernel's link table, changed by netlink calls that may fail. */
module Kernel {
  import opened GoStrings

  /** Bond attributes; 0, "" and -1 stand for values that a configuration leaves open. */
  datatype Attrs = Attrs(mode: string, mtu: int, hardwareAddr: string, txQLen: int, miimon: int)

  datatype Kind = BondKind | BridgeKind | DeviceKind

  datatype Link = Link(index: nat, master: nat, up: bool, kind: Kind, attrs: Attrs)

  type Links = map<string, Link>

  /** Answers of the kernel; only conflicts are worth a retry. */
  datatype Answer = Accepted | Conflict | Refused

  datatype Lookup = Found(link: Link) | NotFound | LookupFailed(conflict: bool)

  const DEFAULT_MIIMON := 100

  /** A bond that was created from a configuration has every attribute that the configuration sets. */
  predicate Kept(config: Attrs, actual: Attrs) {
    && actual.mode == config.mode
    && (config.mtu != 0 ==> actual.mtu == config.mtu)
    && (config.hardwareAddr != "" ==> actual.hardwareAddr == config.hardwareAddr)
    && (config.txQLen != -1 ==> actual.txQLen == config.txQLen)
    && (config.miimon != -1 ==> actual.miimon == config.miimon)
  }

  /** Indexes run from 1 to the last one handed out, and no link is its own master. */
  ghost predicate WellFormed(links: Links, lastIndex: nat) {
    forall n :: n in links ==>
      0 < links[n].index <= lastIndex && links[n].master <= lastIndex && links[n].master != links[n].index
  }

  /** Deleting a master frees its slaves; the kernel decides which of them stay up. */
  function Freed(links: Links, index: nat, staysUp: string -> bool): (r: Links)
  {
    map n | n in links ::
      if links[n].master == index then links[n].(master := 0, up := staysUp(n)) else links[n]
  }

  class LinkTable {
    /** The answer to each call, counted from zero. */
    const answers: nat -> Answer
    /** The attributes that the kernel fills in where a configuration leaves them open. */
    const defaults: Attrs
    /** Whether a link is up after its master was deleted, and after its own master was changed. */
    const staysUp: string -> bool
    const upAfterMove: string -> bool
    var links: Links
    var calls: nat
    var lastIndex: nat

    ghost predicate Valid()
      reads this
    {
      WellFormed(links, lastIndex)
    }

    /** The kernel refuses nothing that makes sense. */
    ghost predicate Obliging() {
      forall n :: answers(n).Accepted?
    }

    constructor (links: Links, lastIndex: nat, answers: nat -> Answer, defaults: Attrs, staysUp: string -> bool,
                 upAfterMove: string -> bool)
      requires WellFormed(links, lastIndex)
      ensures Valid() && this.links == links && this.answers == answers && this.staysUp == staysUp
    {
      this.links, this.lastIndex, this.calls := links, lastIndex, 0;
      this.answers, this.defaults, this.staysUp, this.upAfterMove := answers, defaults, staysUp, upAfterMove;
    }

    method Ask() returns (a: Answer)
      modifies this`calls
      ensures a == answers(old(calls)) && calls == old(calls) + 1
    {
      a := answers(calls);
      calls := calls + 1;
    }

    method LinkByName(name: string) returns (r: Lookup)
      modifies this`calls
      ensures r.Found? ==> name in links && r.link == links[name]
      ensures r.NotFound? ==> name !in links
      ensures r.LookupFailed? <==> !answers(old(calls)).Accepted?
      ensures r.LookupFailed? ==> r.conflict == answers(old(calls)).Conflict?
      ensures calls == old(calls) + 1
    {
      var a := Ask();
      r := if !a.Accepted? then LookupFailed(a.Conflict?) else if name in links then Found(links[name]) else NotFound;
    }

    method LinkSetUp(name: string) returns (a: Answer)
      requires Valid()
      modifies this`calls, this`links
      ensures Valid() && a == if name in old(links) then answers(old(calls)) else Refused
      ensures calls == old(calls) + 1
      ensures links == if a.Accepted? then old(links)[name := old(links)[name].(up := true)] else old(links)
    {
      a := Ask();
      if name !in links {
        a := Refused;
      } else if a.Accepted? {
        links := links[name := links[name].(up := true)];
      }
    }

    method LinkSetDown(name: string) returns (ok: bool)
      requires Valid()
      modifies this`calls, this`links
      ensures Valid() && (ok <==> name in old(links) && answers(old(calls)).Accepted?) && calls == old(calls) + 1
      ensures links == if ok then old(links)[name := old(links)[name].(up := false)] else old(links)
    {
      var a := Ask();
      ok := a.Accepted? && name in links;
      if ok {
        links := links[name := links[name].(up := false)];
      }
    }

    /** Enslaves a link, or frees it if the master is 0; a link cannot be its own master. */
    method LinkSetMaster(name: string, master: nat) returns (ok: bool)
      requires Valid() && master <= lastIndex
      modifies this`calls, this`links
      ensures Valid() && calls == old(calls) + 1
      ensures ok <==> name in old(links) && old(links)[name].index != master && answers(old(calls)).Accepted?
      ensures links ==
              if ok then old(links)[name := old(links)[name].(master := master, up := upAfterMove(name))]
              else old(links)
    {
      var a := Ask();
      ok := a.Accepted? && name in links && links[name].index != master;
      if ok {
        links := links[name := links[name].(master := master, up := upAfterMove(name))];
      }
    }

    method LinkDel(name: string) returns (ok: bool)
      requires Valid()
      modifies this`calls, this`links
      ensures Valid() && (ok ==> name in old(links)) && (Obliging() && name in old(links) ==> ok)
      ensures links == if ok then Freed(old(links), old(links)[name].index, staysUp) - {name} else old(links)
    {
      var a := Ask();
      ok := a.Accepted? && name in links;
      if ok {
        links := Freed(links, links[name].index, staysUp) - {name};
      }
    }

    /** Creates a bond under a new index, down and without a master. */
    method LinkAdd(name: string, config: Attrs) returns (ok: bool)
      requires Valid()
      modifies this`calls, this`links, this`lastIndex
      ensures Valid() && (ok ==> name !in old(links)) && (Obliging() && name !in old(links) ==> ok)
      ensures !ok ==> links == old(links)
      ensures ok ==>
                && name in links && links - {name} == old(links)
                && links[name].kind.BondKind? && links[name].master == 0 && Kept(config, links[name].attrs)
                && forall n :: n in old(links) ==>
                     old(links)[n].master != links[name].index && old(links)[n].index != links[name].index
    {
      var a := Ask();
      ok := a.Accepted? && name !in links;
      if ok {
        lastIndex := lastIndex + 1;
        var attrs := Attrs(config.mode, if config.mtu != 0 then config.mtu else defaults.mtu,
                           if config.hardwareAddr != "" then config.hardwareAddr else defaults.hardwareAddr,
                           if config.txQLen != -1 then config.txQLen else defaults.txQLen,
                           if config.miimon != -1 then config.miimon else defaults.miimon);
        links := links[name := Link(lastIndex, 0, false, BondKind, attrs)];
      }
    }

    method LinkList() returns (r: Option<Links>)
      modifies this`calls
      ensures r.Some? ==> r.value == links
      ensures Obliging() ==> r.Some?
    {
      var a := Ask();
      r := if a.Accepted? then Some(links) else None;
    }

    /** How one attempt to bring a link up ends, and the number of the next call: the link is looked up, and set
        up unless it is. */
    ghost function Attempt(up: bool, call: nat): (r: (Answer, nat))
    {
      if !answers(call).Accepted? || up then (answers(call), call + 1) else (answers(call + 1), call + 2)
    }

    /** Brings a link up unless it is; after a conflict, and only then, that is tried once more. */
    method SetLinkUp(name: string) returns (ok: bool)
      requires Valid()
      modifies this`calls, this`links
      ensures Valid() && (ok ==> name in old(links)) && (Obliging() && name in old(links) ==> ok)
      ensures links == if ok then old(links)[name := old(links)[name].(up := true)] else old(links)
      ensures name in old(links) ==>
                var (first, next) := Attempt(old(links)[name].up, old(calls));
                ok <==> first.Accepted? || (first.Conflict? && Attempt(old(links)[name].up, next).0.Accepted?)
    {
      var attempt := 1;
      ok := false;
      while attempt <= 2
        invariant 1 <= attempt <= 3
        invariant Valid() && !ok && links == old(links)
        invariant name in links && attempt == 1 ==> calls == old(calls)
        invariant name in links && attempt > 1 ==> Attempt(links[name].up, old(calls)).0.Conflict?
        invariant name in links && attempt == 2 ==> calls == Attempt(links[name].up, old(calls)).1
        invariant name in links && attempt == 3 ==>
                    Attempt(links[name].up, Attempt(links[name].up, old(calls)).1).0.Conflict?
      {
        var l := LinkByName(name);
        var answer := if l.LookupFailed? && l.conflict then Conflict else Refused;
        if l.Found? && l.link.up {
          assert links == links[name := links[name].(up := true)];
          return true;
        }
        if l.Found? {
          answer := LinkSetUp(name);
          if answer.Accepted? {
            return true;
          }
        }
        if !answer.Conflict? {
          break;
        }
        attempt := attempt + 1;
      }
    }
  }
}
