/** The movement loader: a count n, then n pairs written `col row`, each
    stored as the pair (row, col). */
module Movements {
  import opened Common

  /** One scripted step, in the order the loader stores it: (row, col). */
  datatype Movement = Movement(row: int, col: int)

  /** The loader reads the count and then 2n integers without checking either
      read; a file that cannot supply them leaves the count or the pairs to
      the stream's failure semantics, which this model does not cover. */
  predicate WellFormed(f: File)
  {
    f.Opened? ==> |f.ints| >= 1 && |f.ints| - 1 >= 2 * Max0(f.ints[0])
  }

  /** The first n pairs of `body`, each read as `col row` and stored as (row, col). */
  function Pairs(body: seq<int>, n: int): (ms: seq<Movement>)
    requires 2 * Max0(n) <= |body|
    ensures |ms| == Max0(n)
    ensures forall i :: 0 <= i < |ms| ==> ms[i] == Movement(body[2 * i + 1], body[2 * i])
    decreases Max0(n)
  {
    if n <= 0 then [] else Pairs(body, n - 1) + [Movement(body[2 * n - 1], body[2 * n - 2])]
  }

  /** What loading a movement file yields. */
  function ParseMovements(name: string, f: File): (r: Result<seq<Movement>>)
    requires WellFormed(f)
    ensures r.Failure? <==> f.Unopenable?
    ensures r.Failure? ==> r.error == InvalidArgument("Failed to open movements file: " + name)
    ensures r.Success? ==> |r.value| == Max0(f.ints[0])
    ensures r.Success? ==> forall i :: 0 <= i < |r.value| ==>
              r.value[i] == Movement(f.ints[2 * i + 2], f.ints[2 * i + 1])
  {
    match f
    case Unopenable => Failure(InvalidArgument("Failed to open movements file: " + name))
    case Opened(ints) => Success(Pairs(ints[1..], ints[0]))
  }

  /** `RatInstance::LoadMovementsFromFile`: open the file or throw, read the
      count, then push one (row, col) pair per iteration of the counted loop. */
  method LoadMovementsFromFile(name: string, f: File) returns (r: Result<seq<Movement>>)
    requires WellFormed(f)
    ensures r == ParseMovements(name, f)
    ensures r.Failure? <==> f.Unopenable?
    ensures r.Failure? ==> r.error == InvalidArgument("Failed to open movements file: " + name)
    ensures r.Success? ==> |r.value| == Max0(f.ints[0])
    ensures r.Success? ==> forall i :: 0 <= i < |r.value| ==>
              r.value[i] == Movement(f.ints[2 * i + 2], f.ints[2 * i + 1])
  {
    if f.Unopenable? {
      return Failure(InvalidArgument("Failed to open movements file: " + name));
    }
    var ints := f.ints;
    var n := ints[0];
    var cursor := 1;
    var movements: seq<Movement> := [];
    var i := 0;
    while i < n
      invariant 0 <= i <= Max0(n)
      invariant cursor == 1 + 2 * i
      invariant movements == Pairs(ints[1..], i)
    {
      var col := ints[cursor];
      var row := ints[cursor + 1];
      cursor := cursor + 2;
      movements := movements + [Movement(row, col)];
      i := i + 1;
    }
    return Success(movements);
  }

  /** The integers of the pairs of `ms`, each written `col row`. */
  function ColRowInts(ms: seq<Movement>): (ints: seq<int>)
    ensures |ints| == 2 * |ms|
    ensures forall i :: 0 <= i < |ms| ==> ints[2 * i] == ms[i].col && ints[2 * i + 1] == ms[i].row
  {
    if ms == [] then [] else ColRowInts(ms[..|ms| - 1]) + [ms[|ms| - 1].col, ms[|ms| - 1].row]
  }

  /** A movement file that holds exactly the steps `ms`: their count, then their pairs. */
  function EncodeMovements(ms: seq<Movement>): (ints: seq<int>)
    ensures |ints| == 1 + 2 * |ms|
  {
    [|ms|] + ColRowInts(ms)
  }

  /** Loading a file written from `ms` gives back `ms`, in order and un-swapped. */
  lemma ParseMovementsRoundTrip(name: string, ms: seq<Movement>)
    ensures WellFormed(Opened(EncodeMovements(ms)))
    ensures ParseMovements(name, Opened(EncodeMovements(ms))) == Success(ms)
  {
    var ints := EncodeMovements(ms);
    assert ints[1..] == ColRowInts(ms);
    var loaded := Pairs(ints[1..], |ms|);
    assert |loaded| == |ms|;
    forall i | 0 <= i < |ms| ensures loaded[i] == ms[i] {
      assert loaded[i] == Movement(ints[1..][2 * i + 1], ints[1..][2 * i]);
    }
    assert loaded == ms;
  }

  /** Integers after the n pairs are never read. */
  lemma ParseMovementsIgnoresTrailing(name: string, ints: seq<int>, extra: seq<int>)
    requires WellFormed(Opened(ints))
    ensures WellFormed(Opened(ints + extra))
    ensures ParseMovements(name, Opened(ints + extra)) == ParseMovements(name, Opened(ints))
  {
    var longer := ints + extra;
    var a := Pairs(longer[1..], longer[0]);
    var b := Pairs(ints[1..], ints[0]);
    forall i | 0 <= i < |a| ensures a[i] == b[i] {
      assert longer[1..][2 * i + 1] == ints[1..][2 * i + 1];
      assert longer[1..][2 * i] == ints[1..][2 * i];
    }
    assert a == b;
  }

  /** A file whose count is not positive yields no steps, whatever follows it. */
  lemma ParseMovementsNonPositiveCount(name: string, ints: seq<int>)
    requires |ints| >= 1 && ints[0] <= 0
    ensures WellFormed(Opened(ints))
    ensures ParseMovements(name, Opened(ints)) == Success([])
  {
  }

  /** The three-step file `3  1 0  0 1  2 2` loads as (0,1), (1,0), (2,2). */
  lemma ParseMovementsExample(name: string)
    ensures WellFormed(Opened([3, 1, 0, 0, 1, 2, 2]))
    ensures ParseMovements(name, Opened([3, 1, 0, 0, 1, 2, 2]))
            == Success([Movement(0, 1), Movement(1, 0), Movement(2, 2)])
  {
    var ms := Pairs([1, 0, 0, 1, 2, 2], 3);
    assert ms[0] == Movement(0, 1) && ms[1] == Movement(1, 0) && ms[2] == Movement(2, 2);
    assert ms == [Movement(0, 1), Movement(1, 0), Movement(2, 2)];
  }
}
