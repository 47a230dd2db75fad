/** What can go wrong in an insert, and in a walk that inserts many elements or fills an index. */
module Faults {
  import opened Sizing

  const PIPELINE_DEPTH: nat := 16

  /** How many of n elements a walk that hashes sixteen ahead has handled when the hash of element `throwsAt` throws:
      all of them when there is no such element. */
  function CameTo(throwsAt: nat, n: nat): (r: nat)
    ensures r <= n && (r == n <==> throwsAt >= n)
  {
    if throwsAt >= n then n else if throwsAt < PIPELINE_DEPTH then 0 else throwsAt - PIPELINE_DEPTH
  }

  // One insert /////////////////////////////////////////////////////////////////

  /** The value cannot be appended, or the hash of value `at` throws while a growth fills the new array. */
  datatype Trouble = NoTrouble | NoAppend | NoHash(at: nat)

  // Many ///////////////////////////////////////////////////////////////////////

  /** What goes wrong in a walk over the elements of another container: the hash of one throws, or its comparison, or it
      cannot be appended, or the growth it calls for hashes a value that throws. */
  datatype Fault = NoFault | HashAt(at: nat) | CompareAt(at: nat) | AppendAt(at: nat) | GrowAt(at: nat, value: nat)

  /** How that looks from the elements: the walk ends before one is handled, or there is trouble inserting it. */
  datatype Interruption = Uninterrupted | Before(at: nat) | Inserting(at: nat, trouble: Trouble)

  /** A comparison ends the walk before its own element; so does a hash, unless the walk hashes sixteen ahead. */
  function Cut(fault: Fault, pipelined: bool, n: nat): Interruption {
    match fault
    case NoFault => Uninterrupted
    case HashAt(j) => Before(if pipelined then CameTo(j, n) else j)
    case CompareAt(j) => Before(j)
    case AppendAt(j) => Inserting(j, NoAppend)
    case GrowAt(j, value) => Inserting(j, NoHash(value))
  }

  function TroubleAt(x: Interruption, i: nat): Trouble {
    if x.Inserting? && x.at == i then x.trouble else NoTrouble
  }

  /** The trouble a fault makes in the turn of element i. */
  function TroubleOf(fault: Fault, i: nat): Trouble {
    if fault == AppendAt(i) then NoAppend
    else if fault.GrowAt? && fault.at == i then NoHash(fault.value)
    else NoTrouble
  }

  /** The element whose hash throws, if it is among n. */
  function Throwing(fault: Fault, n: nat): nat {
    if fault.HashAt? then fault.at else n
  }

  /** In the ring, an element's turn comes as long as the hashes up to sixteen ahead have not thrown. */
  lemma CutAt(fault: Fault, pipelined: bool, n: nat, i: nat)
    requires i < n && (pipelined ==> Min(n, i + PIPELINE_DEPTH) <= Throwing(fault, n))
    ensures Cut(fault, pipelined, n) == Before(i)
       <==> fault == CompareAt(i)
            || if pipelined then Throwing(fault, n) < Min(n, i + 1 + PIPELINE_DEPTH) else fault == HashAt(i)
    ensures TroubleAt(Cut(fault, pipelined, n), i) == TroubleOf(fault, i)
  {
  }

  lemma CutStart(fault: Fault, n: nat)
    requires Throwing(fault, n) < Min(n, PIPELINE_DEPTH)
    ensures Cut(fault, true, n) == Before(0)
  {
  }
}
