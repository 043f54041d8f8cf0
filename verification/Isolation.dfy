/** The memory a process is promised: private bytes that only its own actions change. */
module Isolation {
  import opened Basics

  /** The bytes one process sees at its addresses. */
  type ByteMap = imap<nat, byte>

  /** Actions of processes, with what the kernel chose for them. */
  datatype Event =
    | Started(child: nat, file: seq<byte>, areas: nat)
    | Forked(parent: nat, child: nat)
    | HalfForked(child: nat, memory: ByteMap)
    | Execed(p: nat, file: seq<byte>)
    | Mapped(p: nat, start: nat, length: nat)
    | Stored(p: nat, va: nat, b: byte)
    | Reaped(p: nat)

  /**
   A program image: with one area the file from address 0, padded to whole pages of 4 KiB; with two areas also a zeroed
   stack of 16 KiB.
   */
  ghost function Image(file: seq<byte>, areas: nat): ByteMap {
    imap va: nat | InImage(file, areas, va) :: if va < |file| then file[va] else 0
  }

  /** A page holds the address that also holds a byte of a file mapped from address 0. */
  predicate InFile(size: nat, va: nat) {
    va / 4096 * 4096 < size
  }

  predicate InStack(va: nat) {
    0x3f_ffff_c000 <= va < 0x40_0000_0000
  }

  predicate InImage(file: seq<byte>, areas: nat, va: nat) {
    || (areas >= 1 && InFile(|file|, va))
    || (areas >= 2 && InStack(va))
  }

  /** The same bytes and a range of zeros. */
  ghost function AddZeros(m: ByteMap, start: nat, length: nat): ByteMap {
    imap va: nat | va in m || start <= va < start + length :: if start <= va < start + length then 0 else m[va]
  }

  ghost function WriteByte(m: ByteMap, va: nat, b: byte): ByteMap {
    imap x: nat | x in m :: if x == va then b else m[x]
  }

  /** Every process has an eager private copy of its memory. */
  ghost function Apply(s: map<nat, ByteMap>, e: Event): map<nat, ByteMap> {
    match e
    case Started(c, file, areas) => s[c := Image(file, areas)]
    case Forked(p, c) => if p in s then s[c := s[p]] else s
    case HalfForked(c, memory) => s[c := memory]
    case Execed(p, file) => s[p := Image(file, 2)]
    case Mapped(p, start, length) => if p in s then s[p := AddZeros(s[p], start, length)] else s
    case Stored(p, va, b) => if p in s then s[p := WriteByte(s[p], va, b)] else s
    case Reaped(p) => s - {p}
  }

  ghost function Replay(history: seq<Event>): map<nat, ByteMap> {
    if history == [] then map[] else Apply(Replay(history[..|history| - 1]), history[|history| - 1])
  }

  /** The process an action belongs to, or that it brings into being. */
  function Subject(e: Event): nat {
    match e
    case Started(c, _, _) => c
    case Forked(_, c) => c
    case HalfForked(c, _) => c
    case Execed(p, _) => p
    case Mapped(p, _, _) => p
    case Stored(p, _, _) => p
    case Reaped(p) => p
  }

  lemma ReplayNext(history: seq<Event>, e: Event)
    ensures Replay(history + [e]) == Apply(Replay(history), e)
  {
  }

  /** Whatever the others do, the memory of a process stays as it is. */
  lemma {:induction false} OthersDoNotMatter(history: seq<Event>, more: seq<Event>, q: nat)
    requires forall i :: 0 <= i < |more| ==> Subject(more[i]) != q
    ensures q in Replay(history + more) <==> q in Replay(history)
    ensures q in Replay(history) ==> Replay(history + more)[q] == Replay(history)[q]
  {
    hide Replay, Apply, Subject;
    if more == [] {
      assert history + more == history;
    } else {
      var last := |more| - 1;
      OthersDoNotMatter(history, more[..last], q);
      assert history + more == (history + more[..last]) + [more[last]];
      ReplayNext(history + more[..last], more[last]);
      ApplyOther(Replay(history + more[..last]), more[last], q);
    }
  }

  lemma ApplyOther(s: map<nat, ByteMap>, e: Event, q: nat)
    requires Subject(e) != q
    ensures q in Apply(s, e) <==> q in s
    ensures q in s ==> Apply(s, e)[q] == s[q]
  {
    hide Image, AddZeros, WriteByte;
  }

  /** A process that comes into being and goes leaves nothing behind. */
  lemma BirthAndDeath(history: seq<Event>, birth: Event, c: nat)
    requires c !in Replay(history) && Subject(birth) == c
    ensures Replay(history + [birth] + [Reaped(c)]) == Replay(history)
  {
  }

  /** A child starts with its parent's memory and keeps it whatever the parent does next. */
  lemma ForkIsACopy(history: seq<Event>, p: nat, c: nat, more: seq<Event>)
    requires p in Replay(history) && p != c
    requires forall i :: 0 <= i < |more| ==> Subject(more[i]) != c
    ensures c in Replay(history + [Forked(p, c)] + more)
            && Replay(history + [Forked(p, c)] + more)[c] == Replay(history)[p]
  {
    ReplayNext(history, Forked(p, c));
    OthersDoNotMatter(history + [Forked(p, c)], more, c);
  }
}
