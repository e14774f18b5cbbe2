/** The open-addressing table of NTP sources (ntp_sources.c). */
module SourceHash {

  const N_RECORDS: nat := 256
  const MAX_SOURCES: nat := 64

  type Bytes16 = s: seq<bv8> | |s| == 16 witness [0, 0, 0, 0, 0, 0, 0, 0, 0, 0, 0, 0, 0, 0, 0, 0]

  /** Bytes of an IPv4 address from the least significant, or of an IPv6 address in network order. */
  datatype IP = Ip4(b0: bv8, b1: bv8, b2: bv8, b3: bv8) | Ip6(bytes: Bytes16) | Unspecified

  datatype Address = Address(ip: IP, port: nat)

  /** A slot of the table; data stands for the protocol instance of the source. */
  datatype Slot = Empty | Used(addr: Address, data: int)

  type Table = seq<Slot>

  // ---------- the hash ----------

  /** Folding a 32-bit word twice by exclusive or leaves the exclusive or of its bytes. */
  lemma FoldIsXorOfBytes(ip: bv32)
    ensures var h := ip ^ (ip >> 16);
            (h ^ (h >> 8)) & 0xff == ((ip & 0xff) ^ ((ip >> 8) & 0xff) ^ ((ip >> 16) & 0xff) ^ ((ip >> 24) & 0xff))
  {
  }

  function XorAll(s: seq<bv8>): bv8 {
    if s == [] then 0 else XorAll(s[..|s| - 1]) ^ s[|s| - 1]
  }

  function Hash(ip: IP): (h: nat)
    ensures h < N_RECORDS
  {
    match ip
    case Ip4(b0, b1, b2, b3) => (b0 ^ b1 ^ b2 ^ b3) as nat
    case Ip6(bytes) => XorAll(bytes) as nat
    case Unspecified => 0
  }

  // ---------- probing ----------

  predicate InTable(i: nat) { i < N_RECORDS }

  /** How far slot i lies behind the hash h on the probe path. */
  function Distance(h: nat, i: nat): nat
    requires InTable(h) && InTable(i)
  {
    if i >= h then i - h else i + N_RECORDS - h
  }

  function Next(i: nat): (j: nat)
    requires InTable(i)
    ensures InTable(j)
  {
    if i + 1 == N_RECORDS then 0 else i + 1
  }

  predicate Holds(t: Table, i: nat, ip: IP)
    requires |t| == N_RECORDS && InTable(i)
  {
    t[i].Used? && t[i].addr.ip == ip
  }

  /** Every slot of the probe path of h before slot s is in use. */
  ghost predicate PathFull(t: Table, h: nat, s: nat)
    requires |t| == N_RECORDS && InTable(h) && InTable(s)
  {
    forall i: nat :: InTable(i) && Distance(h, i) < Distance(h, s) ==> t[i].Used?
  }

  /** Every slot of the probe path before slot s holds another address. */
  ghost predicate PathMisses(t: Table, ip: IP, s: nat)
    requires |t| == N_RECORDS && InTable(s)
  {
    forall i: nat :: InTable(i) && Distance(Hash(ip), i) < Distance(Hash(ip), s) ==> t[i].Used? && !Holds(t, i, ip)
  }

  ghost predicate Distinct(t: Table)
    requires |t| == N_RECORDS
  {
    forall i: nat, j: nat :: i < j < N_RECORDS && t[i].Used? && t[j].Used? ==> t[i].addr.ip != t[j].addr.ip
  }

  /** Each entry can be reached from its hash without crossing a free slot. */
  ghost predicate NoHoles(t: Table)
    requires |t| == N_RECORDS
  {
    forall s: nat :: InTable(s) && t[s].Used? ==> !t[s].addr.ip.Unspecified? && PathFull(t, Hash(t[s].addr.ip), s)
  }

  /** Number of used slots among the first k. */
  function Count(t: Table, k: nat): (n: nat)
    requires k <= |t|
    ensures n <= k
  {
    if k == 0 then 0 else Count(t, k - 1) + if t[k - 1].Used? then 1 else 0
  }

  ghost predicate Sound(t: Table) {
    |t| == N_RECORDS && Distinct(t) && NoHoles(t) && Count(t, N_RECORDS) <= MAX_SOURCES
  }

  lemma {:induction false} FreeSlot(t: Table, k: nat) returns (e: nat)
    requires k <= |t| && Count(t, k) < k
    ensures e < k && t[e].Empty?
  {
    if t[k - 1].Empty? {
      e := k - 1;
    } else {
      e := FreeSlot(t, k - 1);
    }
  }

  // ---------- the map the table stands for ----------

  /** The entries of the first k slots, by address. */
  ghost function ContentsOf(t: Table, k: nat): map<IP, Slot>
    requires k <= |t|
  {
    if k == 0 then map[]
    else if t[k - 1].Used? then ContentsOf(t, k - 1)[t[k - 1].addr.ip := t[k - 1]]
    else ContentsOf(t, k - 1)
  }

  ghost function Contents(t: Table): map<IP, Slot> { ContentsOf(t, |t|) }

  lemma {:induction false} ContentsMeans(t: Table, k: nat, ip: IP)
    requires |t| == N_RECORDS && Distinct(t) && k <= |t|
    ensures ip in ContentsOf(t, k) <==> exists s: nat :: s < k && Holds(t, s, ip)
    ensures forall s: nat :: s < k && Holds(t, s, ip) ==> ContentsOf(t, k)[ip] == t[s]
    ensures |ContentsOf(t, k)| == Count(t, k)
  {
    if k > 0 {
      ContentsMeans(t, k - 1, ip);
      if t[k - 1].Used? {
        var last := t[k - 1].addr.ip;
        ContentsMeans(t, k - 1, last);
        assert forall s: nat :: s < k - 1 ==> !Holds(t, s, last);
        if last == ip {
          assert Holds(t, k - 1, ip);
        }
      }
    }
  }

  /** A search that ends at a matching or free slot decides whether the address is present. */
  lemma SearchDecides(t: Table, ip: IP, s: nat)
    requires Sound(t) && InTable(s) && PathMisses(t, ip, s) && !ip.Unspecified?
    requires t[s].Empty? || Holds(t, s, ip)
    ensures Holds(t, s, ip) <==> ip in Contents(t)
    ensures Holds(t, s, ip) ==> Contents(t)[ip] == t[s]
  {
    ContentsMeans(t, N_RECORDS, ip);
    if ip in Contents(t) {
      var p: nat :| p < N_RECORDS && Holds(t, p, ip);
      assert PathFull(t, Hash(ip), p);
      if Distance(Hash(ip), p) < Distance(Hash(ip), s) {
        assert false;
      }
    }
  }

  // ---------- filling a free slot ----------

  lemma {:induction false} CountOfUpdate(t: Table, s: nat, slot: Slot, k: nat)
    requires s < |t| && k <= |t|
    ensures Count(t[s := slot], k) ==
              if s < k then Count(t, k) - (if t[s].Used? then 1 else 0) + (if slot.Used? then 1 else 0)
              else Count(t, k)
  {
    if k > 0 {
      CountOfUpdate(t, s, slot, k - 1);
    }
  }

  /** A new address in the free slot its search ends at keeps the table sound and adds it to the map. */
  lemma InsertIsSound(t: Table, s: nat, slot: Slot)
    requires Sound(t) && InTable(s) && t[s].Empty? && slot.Used? && !slot.addr.ip.Unspecified?
    requires PathMisses(t, slot.addr.ip, s) && Count(t, N_RECORDS) < MAX_SOURCES
    ensures Sound(t[s := slot]) && Contents(t[s := slot]) == Contents(t)[slot.addr.ip := slot]
    ensures slot.addr.ip !in Contents(t)
  {
    var u := t[s := slot];
    SearchDecides(t, slot.addr.ip, s);
    NewIsDistinct(t, s, slot);
    CountOfUpdate(t, s, slot, N_RECORDS);
    forall i: nat | InTable(i) && u[i].Used? ensures PathFull(u, Hash(u[i].addr.ip), i) {
      if i != s {
        assert PathFull(t, Hash(t[i].addr.ip), i);
      }
    }
    InsertContents(t, s, slot);
  }

  lemma NewIsDistinct(t: Table, s: nat, slot: Slot)
    requires Sound(t) && InTable(s) && t[s].Empty? && slot.Used? && slot.addr.ip !in Contents(t)
    ensures Distinct(t[s := slot])
  {
    var ip := slot.addr.ip;
    ContentsMeans(t, N_RECORDS, ip);
    forall i: nat | i < N_RECORDS && t[i].Used? ensures t[i].addr.ip != ip {
      assert !Holds(t, i, ip);
    }
  }

  lemma InsertContents(t: Table, s: nat, slot: Slot)
    requires Sound(t) && InTable(s) && t[s].Empty? && slot.Used? && Distinct(t[s := slot])
    ensures Contents(t[s := slot]) == Contents(t)[slot.addr.ip := slot]
  {
    var u, ip := t[s := slot], slot.addr.ip;
    forall x: IP
      ensures x in Contents(u) <==> x == ip || x in Contents(t)
      ensures x in Contents(u) ==> Contents(u)[x] == Contents(t)[ip := slot][x]
    {
      ContentsMeans(t, N_RECORDS, x);
      ContentsMeans(u, N_RECORDS, x);
      if x in Contents(t) {
        var i: nat :| i < N_RECORDS && Holds(t, i, x);
        assert Holds(u, i, x);
      }
      if x in Contents(u) {
        var i: nat :| i < N_RECORDS && Holds(u, i, x);
        assert i == s || Holds(t, i, x);
      }
      assert Holds(u, s, ip);
    }
  }

  // ---------- emptying and rehashing ----------

  function AllEmpty(): Table { seq(N_RECORDS, i => Empty) }

  lemma {:induction false} EmptyCount(k: nat)
    requires k <= N_RECORDS
    ensures Count(AllEmpty(), k) == 0 && ContentsOf(AllEmpty(), k) == map[]
  {
    if k > 0 {
      EmptyCount(k - 1);
    }
  }

  lemma EmptyIsSound()
    ensures Sound(AllEmpty()) && Contents(AllEmpty()) == map[]
  {
    EmptyCount(N_RECORDS);
  }

  /** Taking an entry out leaves the other addresses distinct and out of the map only its own. */
  lemma TakeOut(t: Table, s: nat)
    requires Sound(t) && InTable(s) && t[s].Used?
    ensures var u := t[s := Empty];
            && Distinct(u) && Contents(u) == Contents(t) - {t[s].addr.ip}
            && Count(u, N_RECORDS) == Count(t, N_RECORDS) - 1
  {
    var u, ip := t[s := Empty], t[s].addr.ip;
    CountOfUpdate(t, s, Empty, N_RECORDS);
    forall x: IP
      ensures x in Contents(u) <==> x in Contents(t) && x != ip
      ensures x in Contents(u) ==> Contents(u)[x] == Contents(t)[x]
    {
      ContentsMeans(t, N_RECORDS, x);
      ContentsMeans(u, N_RECORDS, x);
      if x in Contents(t) {
        var i: nat :| i < N_RECORDS && Holds(t, i, x);
        assert i == s || Holds(u, i, x);
        assert Holds(t, s, ip);
      }
      if x in Contents(u) {
        var i: nat :| i < N_RECORDS && Holds(u, i, x);
        assert Holds(t, i, x);
      }
    }
  }

  lemma {:induction false} CountGrows(t: Table, j: nat, k: nat)
    requires j <= k <= |t|
    ensures Count(t, j) <= Count(t, k)
  {
    if j < k {
      CountGrows(t, j, k - 1);
    }
  }

  lemma SoundSize(t: Table)
    requires Sound(t)
    ensures |Contents(t)| == Count(t, N_RECORDS)
  {
    ContentsMeans(t, N_RECORDS, Unspecified);
  }

  lemma UnspecifiedIsAbsent(t: Table)
    requires Sound(t)
    ensures Unspecified !in Contents(t)
  {
    ContentsMeans(t, N_RECORDS, Unspecified);
    forall s: nat | s < N_RECORDS ensures !Holds(t, s, Unspecified) {
    }
  }

  // ---------- the table ----------

  datatype Status = Success | NoSuchSource | AlreadyInUse | TooManySources | InvalidAF

  class SourceTable {
    const records: array<Slot>
    var nSources: nat

    /** The table is sound and its count right. */
    ghost predicate Valid()
      reads this, records
    {
      records.Length == N_RECORDS && Sound(records[..]) && nSources == |Entries()|
    }

    /** The map of sources by address. */
    ghost function Entries(): map<IP, Slot>
      reads this, records
    {
      Contents(records[..])
    }

    /** NSR_Initialise. */
    constructor ()
      ensures Valid() && Entries() == map[] && fresh(records)
    {
      records := new Slot[N_RECORDS](i => Empty);
      nSources := 0;
      new;
      assert records[..] == AllEmpty();
      EmptyIsSound();
    }

    /** find_slot: 0 for an absent address, 1 when only the address matches, 2 when the port does too. */
    method FindSlot(remote: Address) returns (slot: nat, found: nat)
      requires records.Length == N_RECORDS && Sound(records[..])
      ensures InTable(slot) && found <= 2
      ensures found == 0 <==> remote.ip !in Entries()
      ensures found > 0 ==> records[slot] == Entries()[remote.ip] && Holds(records[..], slot, remote.ip)
      ensures found > 0 ==> (found == 2 <==> records[slot].addr.port == remote.port)
      ensures found == 0 && !remote.ip.Unspecified? ==>
                records[slot].Empty? && PathMisses(records[..], remote.ip, slot)
    {
      ghost var t := records[..];
      if remote.ip.Unspecified? {
        UnspecifiedIsAbsent(t);
        return 0, 0;
      }
      ghost var e := FreeSlot(t, N_RECORDS);
      ghost var h := Hash(remote.ip);
      hide Sound, Contents, Count, Hash;
      var hash: nat := Hash(remote.ip);
      while records[hash].Used? && records[hash].addr.ip != remote.ip
        invariant InTable(hash) && PathMisses(t, remote.ip, hash)
        invariant Distance(h, hash) <= Distance(h, e)
        decreases Distance(h, e) - Distance(h, hash)
      {
        NextStep(t, remote.ip, hash, e);
        hash := hash + 1;
        if hash == 256 {
          hash := 0;
        }
      }
      SearchDecides(t, remote.ip, hash);
      slot := hash;
      if records[hash].Used? {
        found := if records[hash].addr.port == remote.port then 2 else 1;
      } else {
        found := 0;
      }
    }

    /** NSR_AddSource: the new source joins the map unless its address is present, the table has its 64
        sources, or the address family is not one of the two. */
    method AddSource(remote: Address, data: int) returns (status: Status)
      requires Valid()
      modifies records, `nSources
      ensures Valid()
      ensures status == if remote.ip in old(Entries()) then AlreadyInUse
                        else if |old(Entries())| == MAX_SOURCES then TooManySources
                        else if remote.ip.Unspecified? then InvalidAF
                        else Success
      ensures Entries() == if status == Success then old(Entries())[remote.ip := Used(remote, data)]
                           else old(Entries())
    {
      ghost var t := records[..];
      SoundSize(t);
      hide Sound, Contents, Count, Hash;
      var slot, found := FindSlot(remote);
      if found != 0 {
        return AlreadyInUse;
      }
      if nSources == MAX_SOURCES {
        return TooManySources;
      }
      if remote.ip.Unspecified? {
        return InvalidAF;
      }
      SizeAllowed(t);
      InsertIsSound(t, slot, Used(remote, data));
      nSources := nSources + 1;
      records[slot] := Used(remote, data);
      assert records[..] == t[slot := Used(remote, data)];
      status := Success;
    }

    /** NSR_RemoveSource: the entry of that address goes, whatever its port, and every other stays. */
    method RemoveSource(remote: Address) returns (status: Status)
      requires Valid()
      modifies records, `nSources
      ensures Valid()
      ensures status == if remote.ip in old(Entries()) then Success else NoSuchSource
      ensures Entries() == old(Entries()) - {remote.ip}
    {
      ghost var t := records[..];
      SoundSize(t);
      hide Sound, Contents, Count, Hash;
      var slot, found := FindSlot(remote);
      if found == 0 {
        assert Entries() - {remote.ip} == Entries();
        return NoSuchSource;
      }
      TakeOut(t, slot);
      nSources := nSources - 1;
      records[slot] := Empty;
      ghost var u := records[..];
      assert u == t[slot := Empty];
      Addresses(t, slot, u);
      Rehash();
      SoundSize(records[..]);
      status := Success;
    }

    /** The rehash of NSR_RemoveSource: every entry finds a free slot, so its assertion never fires. */
    method Rehash()
      requires records.Length == N_RECORDS && Distinct(records[..]) && Count(records[..], N_RECORDS) < MAX_SOURCES
      requires forall i :: 0 <= i < N_RECORDS && records[i].Used? ==> !records[i].addr.ip.Unspecified?
      modifies records
      ensures Sound(records[..]) && Entries() == old(Entries())
    {
      var temp := records[..];
      for i := 0 to N_RECORDS
        invariant forall j :: 0 <= j < i ==> records[j] == Empty
      {
        records[i] := Empty;
      }
      assert records[..] == AllEmpty();
      EmptyIsSound();
      hide Sound, Contents, Hash, Distinct;
      for i := 0 to N_RECORDS
        modifies records
        invariant Sound(records[..]) && Entries() == ContentsOf(temp, i)
      {
        if temp[i].Used? {
          ghost var t := records[..];
          SoundSize(t);
          PartlyFilled(temp, i);
          var slot, found := FindSlot(temp[i].addr);
          assert found == 0;
          InsertIsSound(t, slot, temp[i]);
          records[slot] := temp[i];
          assert records[..] == t[slot := temp[i]];
        }
      }
      WholeContents(temp);
    }

    /** NSR_ProcessReceive's choice: a packet belongs to a known source when address and port match. */
    method IsKnown(remote: Address) returns (known: bool)
      requires Valid()
      ensures known <==> remote.ip in Entries() && Entries()[remote.ip].Used?
                         && Entries()[remote.ip].addr.port == remote.port
    {
      hide Sound, Contents, Hash;
      var slot, found := FindSlot(remote);
      known := found == 2;
    }
  }

  lemma SizeAllowed(t: Table)
    requires Sound(t) && |Contents(t)| != MAX_SOURCES
    ensures Count(t, N_RECORDS) < MAX_SOURCES
  {
    SoundSize(t);
  }

  lemma Addresses(t: Table, s: nat, u: Table)
    requires Sound(t) && InTable(s) && u == t[s := Empty]
    ensures forall i :: 0 <= i < N_RECORDS && u[i].Used? ==> !u[i].addr.ip.Unspecified?
    ensures Count(t, N_RECORDS) <= MAX_SOURCES
  {
  }

  lemma WholeContents(t: Table)
    requires |t| == N_RECORDS
    ensures ContentsOf(t, N_RECORDS) == Contents(t)
  {
  }

  /** The entries before slot i leave room for it and do not have its address. */
  lemma PartlyFilled(t: Table, i: nat)
    requires |t| == N_RECORDS && Distinct(t) && InTable(i) && t[i].Used? && Count(t, N_RECORDS) < MAX_SOURCES
    ensures t[i].addr.ip !in ContentsOf(t, i) && |ContentsOf(t, i)| < MAX_SOURCES
    ensures ContentsOf(t, i + 1) == ContentsOf(t, i)[t[i].addr.ip := t[i]]
  {
    ContentsMeans(t, i, t[i].addr.ip);
    CountGrows(t, i, N_RECORDS);
    var ip := t[i].addr.ip;
    forall s: nat | s < i ensures !Holds(t, s, ip) {
    }
  }

  /** Probing moves one slot further and stays short of any free slot. */
  lemma NextStep(t: Table, ip: IP, s: nat, e: nat)
    requires |t| == N_RECORDS && InTable(s) && InTable(e) && t[e].Empty?
    requires PathMisses(t, ip, s) && t[s].Used? && !Holds(t, s, ip)
    requires Distance(Hash(ip), s) <= Distance(Hash(ip), e)
    ensures PathMisses(t, ip, Next(s))
    ensures Distance(Hash(ip), Next(s)) == Distance(Hash(ip), s) + 1 <= Distance(Hash(ip), e)
  {
    var h := Hash(ip);
    hide Hash;
    assert s != e;
    assert Distance(h, s) < Distance(h, e);
    forall i: nat | InTable(i) && Distance(h, i) < Distance(h, Next(s)) ensures t[i].Used? && !Holds(t, i, ip) {
      assert i == s || Distance(h, i) < Distance(h, s);
    }
  }
}
