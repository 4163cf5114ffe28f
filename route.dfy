/** The greedy route of tcp.c over a 9×9 distance table of northern
    Moroccan cities: from the current city, take the nearest road still in
    the table, erase it, move on, and add up the distances until no road
    leaves the current city. */
module Route {

  const N := 9

  /** The value of the `int dest[N][N]` table, row by row. */
  type Matrix = seq<seq<int>>

  predicate IsCity(c: int) {
    0 <= c < N
  }

  predicate WellFormed(m: Matrix) {
    |m| == N && forall i :: 0 <= i < N ==> |m[i]| == N
  }

  /** The shape every table of the program has: an entry is -1 (no road)
      or a positive distance, and a road is stored in one direction only. */
  predicate RoadTable(m: Matrix) {
    && WellFormed(m)
    && (forall i, j :: 0 <= i < N && 0 <= j < N ==> m[i][j] == -1 || m[i][j] > 0)
    && (forall i, j :: 0 <= i < N && 0 <= j < N ==> !(m[i][j] > 0 && m[j][i] > 0))
  }

  /** The current contents of the C array. */
  ghost function Snapshot(dest: array2<int>): (m: Matrix)
    requires dest.Length0 == N && dest.Length1 == N
    reads dest
    ensures WellFormed(m)
    ensures forall i, j :: IsCity(i) && IsCity(j) ==> m[i][j] == dest[i, j]
  {
    seq(N, i requires 0 <= i < N reads dest => seq(N, j requires 0 <= j < N reads dest => dest[i, j]))
  }

  lemma SnapshotIs(dest: array2<int>, m: Matrix)
    requires dest.Length0 == N && dest.Length1 == N && WellFormed(m)
    requires forall i, j :: IsCity(i) && IsCity(j) ==> dest[i, j] == m[i][j]
    ensures Snapshot(dest) == m
  {
    var s := Snapshot(dest);
    forall i | 0 <= i < N ensures s[i] == m[i] {
      assert forall j :: 0 <= j < N ==> s[i][j] == m[i][j];
    }
  }

  // ---------------------------------------------------------------------
  // Counting the roads left in a table

  function Positive(x: int): nat {
    if x > 0 then 1 else 0
  }

  function CountPos(row: seq<int>): nat {
    if row == [] then 0 else Positive(row[0]) + CountPos(row[1..])
  }

  /** The number of positive entries: the roads not yet used. */
  function PosCount(m: Matrix): nat {
    if m == [] then 0 else CountPos(m[0]) + PosCount(m[1..])
  }

  lemma {:induction false} CountPosUpdate(row: seq<int>, j: nat, v: int)
    requires j < |row|
    ensures CountPos(row[j := v]) == CountPos(row) - Positive(row[j]) + Positive(v)
  {
    if j == 0 {
      assert row[j := v][1..] == row[1..];
    } else {
      assert row[j := v][1..] == row[1..][j - 1 := v];
      CountPosUpdate(row[1..], j - 1, v);
    }
  }

  lemma {:induction false} PosCountUpdate(m: Matrix, i: nat, row: seq<int>)
    requires i < |m|
    ensures PosCount(m[i := row]) == PosCount(m) - CountPos(m[i]) + CountPos(row)
  {
    if i == 0 {
      assert m[i := row][1..] == m[1..];
    } else {
      assert m[i := row][1..] == m[1..][i - 1 := row];
      PosCountUpdate(m[1..], i - 1, row);
    }
  }

  /** `dest[i][j] = v` on the value of the table. */
  function SetCell(m: Matrix, i: int, j: int, v: int): (r: Matrix)
    requires WellFormed(m) && IsCity(i) && IsCity(j)
    ensures WellFormed(r)
    ensures forall a, b :: IsCity(a) && IsCity(b) ==> r[a][b] == if a == i && b == j then v else m[a][b]
    ensures PosCount(r) == PosCount(m) - Positive(m[i][j]) + Positive(v)
  {
    CountPosUpdate(m[i], j, v);
    PosCountUpdate(m, i, m[i][j := v]);
    m[i := m[i][j := v]]
  }

  // ---------------------------------------------------------------------
  // ft_init_dest

  /** The table ft_init_dest leaves, row by row: the distance in
      kilometres from the row's city to the column's, -1 for no road. */
  const DistanceTable: Matrix := [
    [-1, 61, 63, 144, 128, -1, -1, -1, -1],  // Tétouan
    [-1, -1, -1, 64, -1, -1, -1, -1, -1],    // Tanger
    [-1, -1, -1, -1, 70, 168, -1, -1, -1],   // Chefchaouen
    [-1, -1, -1, -1, 82, 122, -1, 225, -1],  // Larache
    [-1, -1, -1, -1, -1, 130, -1, 146, -1],  // Ouazzane
    [-1, -1, -1, -1, -1, -1, 39, 148, 523],  // Kenitra
    [-1, -1, -1, -1, -1, -1, -1, 201, -1],   // Rabat
    [-1, -1, -1, -1, -1, -1, -1, -1, 331],   // FES
    [-1, -1, -1, -1, -1, -1, -1, -1, -1]]    // OUJDA

  /** The table after the fill loops: no road anywhere. */
  function Blank(): (m: Matrix)
    ensures WellFormed(m)
    ensures forall i, j :: IsCity(i) && IsCity(j) ==> m[i][j] == -1
  {
    seq(N, i => seq(N, j => -1))
  }

  /** The writes under "from Tétouan to:". */
  function FromTetouan(m: Matrix): (r: Matrix)
    requires WellFormed(m)
    ensures WellFormed(r)
  {
    var m := SetCell(m, 0, 1, 61);   // Tanger
    var m := SetCell(m, 0, 2, 63);   // Chefchaouen
    var m := SetCell(m, 0, 3, 144);  // Larache
    var m := SetCell(m, 0, 4, 128);  // Ouazzane
    m
  }

  /** The writes under "from Tanger to:". */
  function FromTanger(m: Matrix): (r: Matrix)
    requires WellFormed(m)
    ensures WellFormed(r)
  {
    var m := SetCell(m, 1, 3, 64);   // Larache
    m
  }

  /** The writes under "from Chefchaouen to:". */
  function FromChefchaouen(m: Matrix): (r: Matrix)
    requires WellFormed(m)
    ensures WellFormed(r)
  {
    var m := SetCell(m, 2, 4, 70);   // Ouazzane
    var m := SetCell(m, 2, 5, 168);  // Kenitra
    m
  }

  /** The writes under "from Larache to:". */
  function FromLarache(m: Matrix): (r: Matrix)
    requires WellFormed(m)
    ensures WellFormed(r)
  {
    var m := SetCell(m, 3, 4, 82);   // Ouazzane
    var m := SetCell(m, 3, 5, 122);  // Kenitra
    var m := SetCell(m, 3, 7, 225);  // FES
    m
  }

  /** The writes under "from Ouazzane to:". */
  function FromOuazzane(m: Matrix): (r: Matrix)
    requires WellFormed(m)
    ensures WellFormed(r)
  {
    var m := SetCell(m, 4, 5, 130);  // Kenitra
    var m := SetCell(m, 4, 7, 146);  // FES
    m
  }

  /** The writes under "from Kenitra to:". */
  function FromKenitra(m: Matrix): (r: Matrix)
    requires WellFormed(m)
    ensures WellFormed(r)
  {
    var m := SetCell(m, 5, 6, 39);   // Rabat
    var m := SetCell(m, 5, 7, 148);  // FES
    var m := SetCell(m, 5, 8, 523);  // OUJDA
    m
  }

  /** The writes under "from Rabat to:". */
  function FromRabat(m: Matrix): (r: Matrix)
    requires WellFormed(m)
    ensures WellFormed(r)
  {
    var m := SetCell(m, 6, 7, 201);  // FES
    m
  }

  /** The writes under "from FES to:". */
  function FromFes(m: Matrix): (r: Matrix)
    requires WellFormed(m)
    ensures WellFormed(r)
  {
    var m := SetCell(m, 7, 8, 331);  // OUJDA
    m
  }

  /** The 17 road writes of ft_init_dest, in program order, applied to
      `m`. */
  function WriteRoads(m: Matrix): (r: Matrix)
    requires WellFormed(m)
    ensures WellFormed(r)
  {
    var m := FromTetouan(m);
    var m := FromTanger(m);
    var m := FromChefchaouen(m);
    var m := FromLarache(m);
    var m := FromOuazzane(m);
    var m := FromKenitra(m);
    var m := FromRabat(m);
    var m := FromFes(m);
    m
  }

  /** The table ft_init_dest leaves. */
  function InitialMatrix(): (m: Matrix)
    ensures WellFormed(m)
  {
    WriteRoads(Blank())
  }

  /** `dest[i][j] = v`: one cell changes, the rest of the table stays. */
  method Put(dest: array2<int>, i: int, j: int, v: int)
    requires dest.Length0 == N && dest.Length1 == N && IsCity(i) && IsCity(j)
    modifies dest
    ensures Snapshot(dest) == SetCell(old(Snapshot(dest)), i, j, v)
  {
    ghost var m := Snapshot(dest);
    dest[i, j] := v;
    SnapshotIs(dest, SetCell(m, i, j, v));
  }

  /** The writes under "from Tétouan to:". */
  method WriteFromTetouan(dest: array2<int>)
    requires dest.Length0 == N && dest.Length1 == N
    modifies dest
    ensures Snapshot(dest) == FromTetouan(old(Snapshot(dest)))
  {
    Put(dest, 0, 1, 61);
    Put(dest, 0, 2, 63);
    Put(dest, 0, 3, 144);
    Put(dest, 0, 4, 128);
  }

  /** The writes under "from Tanger to:". */
  method WriteFromTanger(dest: array2<int>)
    requires dest.Length0 == N && dest.Length1 == N
    modifies dest
    ensures Snapshot(dest) == FromTanger(old(Snapshot(dest)))
  {
    Put(dest, 1, 3, 64);
  }

  /** The writes under "from Chefchaouen to:". */
  method WriteFromChefchaouen(dest: array2<int>)
    requires dest.Length0 == N && dest.Length1 == N
    modifies dest
    ensures Snapshot(dest) == FromChefchaouen(old(Snapshot(dest)))
  {
    Put(dest, 2, 4, 70);
    Put(dest, 2, 5, 168);
  }

  /** The writes under "from Larache to:". */
  method WriteFromLarache(dest: array2<int>)
    requires dest.Length0 == N && dest.Length1 == N
    modifies dest
    ensures Snapshot(dest) == FromLarache(old(Snapshot(dest)))
  {
    Put(dest, 3, 4, 82);
    Put(dest, 3, 5, 122);
    Put(dest, 3, 7, 225);
  }

  /** The writes under "from Ouazzane to:". */
  method WriteFromOuazzane(dest: array2<int>)
    requires dest.Length0 == N && dest.Length1 == N
    modifies dest
    ensures Snapshot(dest) == FromOuazzane(old(Snapshot(dest)))
  {
    Put(dest, 4, 5, 130);
    Put(dest, 4, 7, 146);
  }

  /** The writes under "from Kenitra to:". */
  method WriteFromKenitra(dest: array2<int>)
    requires dest.Length0 == N && dest.Length1 == N
    modifies dest
    ensures Snapshot(dest) == FromKenitra(old(Snapshot(dest)))
  {
    Put(dest, 5, 6, 39);
    Put(dest, 5, 7, 148);
    Put(dest, 5, 8, 523);
  }

  /** The writes under "from Rabat to:". */
  method WriteFromRabat(dest: array2<int>)
    requires dest.Length0 == N && dest.Length1 == N
    modifies dest
    ensures Snapshot(dest) == FromRabat(old(Snapshot(dest)))
  {
    Put(dest, 6, 7, 201);
  }

  /** The writes under "from FES to:". */
  method WriteFromFes(dest: array2<int>)
    requires dest.Length0 == N && dest.Length1 == N
    modifies dest
    ensures Snapshot(dest) == FromFes(old(Snapshot(dest)))
  {
    Put(dest, 7, 8, 331);
  }

  /** The first half of `ft_init_dest`: every cell, on and off the
      diagonal alike, is set to -1. */
  method FillBlank(dest: array2<int>)
    requires dest.Length0 == N && dest.Length1 == N
    modifies dest
    ensures Snapshot(dest) == Blank()
  {
    for i := 0 to 9
      invariant forall a, b :: 0 <= a < i && 0 <= b < N ==> dest[a, b] == -1
    {
      for j := 0 to 9
        invariant forall a, b :: 0 <= a < i && 0 <= b < N ==> dest[a, b] == -1
        invariant forall b :: 0 <= b < j ==> dest[i, b] == -1
      {
        if i == j {
          dest[i, j] := -1;
        } else {
          dest[i, j] := -1;
        }
      }
    }
    SnapshotIs(dest, Blank());
  }

  /** The second half of `ft_init_dest`: the 17 roads, city by city. */
  method WriteAllRoads(dest: array2<int>)
    requires dest.Length0 == N && dest.Length1 == N
    modifies dest
    ensures Snapshot(dest) == WriteRoads(old(Snapshot(dest)))
  {
    WriteFromTetouan(dest);
    WriteFromTanger(dest);
    WriteFromChefchaouen(dest);
    WriteFromLarache(dest);
    WriteFromOuazzane(dest);
    WriteFromKenitra(dest);
    WriteFromRabat(dest);
    WriteFromFes(dest);
  }

  /** `ft_init_dest`: the table holds -1 everywhere except the 17 roads. */
  method InitDest(dest: array2<int>)
    requires dest.Length0 == N && dest.Length1 == N
    modifies dest
    ensures Snapshot(dest) == InitialMatrix()
  {
    FillBlank(dest);
    WriteAllRoads(dest);
  }

  // ---------------------------------------------------------------------
  // get_next_city

  /** What the selection loop holds: the city picked so far and
      `last_dest`. */
  datatype Choice = Choice(city: int, dist: int)

  /** The selection loop of `get_next_city` after it has looked at cities
      0 .. k-1. A city is taken while nothing positive has been taken yet,
      or when a road to it, in either direction, is positive and shorter
      than `last_dest`; `last_dest` becomes `-dest[c][i] * dest[i][c]`. */
  function Scan(m: Matrix, c: int, k: nat): Choice
    requires WellFormed(m) && IsCity(c) && k <= N
  {
    if k == 0 then Choice(-1, -1)
    else
      var prev := Scan(m, c, k - 1);
      var i := k - 1;
      if || prev.dist <= 0
         || (m[c][i] < prev.dist && m[c][i] > 0)
         || (m[i][c] < prev.dist && m[i][c] > 0)
      then Choice(i, m[c][i] * m[i][c] * -1)
      else prev
  }

  /** The city `get_next_city` returns and the distance it reports. */
  function NextCity(m: Matrix, c: int): (ch: Choice)
    requires WellFormed(m) && IsCity(c)
    ensures IsCity(ch.city)
  {
    ScanInRange(m, c, N);
    Scan(m, c, N)
  }

  /** The two writes of `get_next_city`: the road used is erased in both
      directions. */
  function Erase(m: Matrix, c: int, b: int): (r: Matrix)
    requires WellFormed(m) && IsCity(c) && IsCity(b)
    ensures WellFormed(r)
  {
    SetCell(SetCell(m, c, b, -1), b, c, -1)
  }

  /** Erasing a road writes -1 into its two cells and changes no other. */
  lemma EraseOnlyRoad(m: Matrix, c: int, b: int)
    requires WellFormed(m) && IsCity(c) && IsCity(b)
    ensures forall i, j :: IsCity(i) && IsCity(j) ==>
              Erase(m, c, b)[i][j] == if (i == c && j == b) || (i == b && j == c) then -1 else m[i][j]
  {
  }

  /** The length of the road between `c` and `i`, whichever way it is
      stored, or -1 when there is none. */
  function Weight(m: Matrix, c: int, i: int): int
    requires WellFormed(m) && IsCity(c) && IsCity(i)
  {
    if m[c][i] > 0 then m[c][i] else if m[i][c] > 0 then m[i][c] else -1
  }

  /** `get_next_city` never returns -1: city 0 is always taken first,
      since `last_dest` starts at -1. */
  lemma {:induction false} ScanInRange(m: Matrix, c: int, k: nat)
    requires WellFormed(m) && IsCity(c) && 1 <= k <= N
    ensures 0 <= Scan(m, c, k).city < k
  {
    if k > 1 {
      ScanInRange(m, c, k - 1);
    }
  }

  /** With no road touching `c`, the loop takes every city in turn, so it
      returns the last one and reports -1. */
  lemma {:induction false} ScanIsolated(m: Matrix, c: int, k: nat)
    requires WellFormed(m) && IsCity(c) && 1 <= k <= N
    requires forall i :: IsCity(i) ==> m[c][i] == -1 && m[i][c] == -1
    ensures Scan(m, c, k) == Choice(k - 1, -1)
  {
    if k > 1 {
      ScanIsolated(m, c, k - 1);
    }
  }

  lemma WeightProduct(m: Matrix, c: int, i: int)
    requires RoadTable(m) && IsCity(c) && IsCity(i)
    ensures m[c][i] * m[i][c] * -1 == Weight(m, c, i)
  {
    if m[c][i] == -1 {
      assert m[c][i] * m[i][c] * -1 == m[i][c];
    } else {
      assert m[i][c] == -1;
      assert m[c][i] * m[i][c] * -1 == m[c][i];
    }
  }

  /** On a road table, the loop finds the nearest city: if some road
      touches `c` among cities 0 .. k-1, it returns the lowest-numbered
      city at the shortest such distance and reports that distance;
      otherwise it returns city k-1 and reports -1. */
  lemma {:induction false} ScanNearest(m: Matrix, c: int, k: nat)
    requires RoadTable(m) && IsCity(c) && 1 <= k <= N
    ensures var ch := Scan(m, c, k);
            && 0 <= ch.city < k
            && ch.dist == Weight(m, c, ch.city)
            && (ch.dist == -1 ==> ch.city == k - 1 && forall i :: 0 <= i < k ==> Weight(m, c, i) == -1)
            && (ch.dist != -1 ==> ch.dist > 0)
            && (forall i :: 0 <= i < k && Weight(m, c, i) > 0 ==> ch.dist <= Weight(m, c, i))
            && (forall i :: 0 <= i < ch.city && Weight(m, c, i) > 0 ==> ch.dist < Weight(m, c, i))
  {
    var i := k - 1;
    WeightProduct(m, c, i);
    if k > 1 {
      ScanNearest(m, c, k - 1);
    }
  }

  /** `get_next_city` on a road table: the nearest city and its distance,
      or city N-1 and -1 when no road touches `c`. */
  lemma NextCityNearest(m: Matrix, c: int)
    requires RoadTable(m) && IsCity(c)
    ensures var ch := NextCity(m, c);
            && IsCity(ch.city)
            && ch.dist == Weight(m, c, ch.city)
            && (ch.dist == -1 <==> forall i :: IsCity(i) ==> Weight(m, c, i) == -1)
            && (ch.dist == -1 ==> ch.city == N - 1)
            && (ch.dist != -1 ==> ch.dist > 0)
            && (forall i :: IsCity(i) && Weight(m, c, i) > 0 ==> ch.dist <= Weight(m, c, i))
            && (forall i :: 0 <= i < ch.city && Weight(m, c, i) > 0 ==> ch.dist < Weight(m, c, i))
  {
    ScanNearest(m, c, N);
  }

  /** One step of the walk on a road table: the table stays a road table;
      a step reporting a distance erases exactly one road; a step
      reporting -1 changes nothing. */
  lemma StepErasesOneRoad(m: Matrix, c: int)
    requires RoadTable(m) && IsCity(c)
    ensures var ch := NextCity(m, c);
            && IsCity(ch.city)
            && RoadTable(Erase(m, c, ch.city))
            && (ch.dist == -1 ==> Erase(m, c, ch.city) == m)
            && (ch.dist != -1 ==> ch.dist > 0 && PosCount(Erase(m, c, ch.city)) == PosCount(m) - 1)
  {
    NextCityNearest(m, c);
    var b := NextCity(m, c).city;
    var r := Erase(m, c, b);
    if NextCity(m, c).dist == -1 {
      assert m[c][b] == -1 && m[b][c] == -1;
      SetCellSame(m, c, b);
      SetCellSame(m, b, c);
    } else {
      assert b != c by { assert m[c][c] == -1; }
    }
  }

  lemma SetCellSame(m: Matrix, i: int, j: int)
    requires WellFormed(m) && IsCity(i) && IsCity(j)
    ensures SetCell(m, i, j, m[i][j]) == m
  {
    assert m[i][j := m[i][j]] == m[i];
  }

  /** `get_next_city`: scans the cities in order, keeps the best so far in
      `best_city` and `last_dest`, reports the distance through
      `new_dest`, and erases the road it takes. */
  method GetNextCity(corentCity: int, dest: array2<int>) returns (bestCity: int, newDest: int)
    requires dest.Length0 == N && dest.Length1 == N && IsCity(corentCity)
    modifies dest
    ensures Choice(bestCity, newDest) == NextCity(old(Snapshot(dest)), corentCity)
    ensures IsCity(bestCity)
    ensures Snapshot(dest) == Erase(old(Snapshot(dest)), corentCity, bestCity)
  {
    ghost var m := Snapshot(dest);
    var lastDest := -1;
    bestCity := -1;
    for i := 0 to N
      invariant Choice(bestCity, lastDest) == Scan(m, corentCity, i)
    {
      if || lastDest <= 0
         || (dest[corentCity, i] < lastDest && dest[corentCity, i] > 0)
         || (dest[i, corentCity] < lastDest && dest[i, corentCity] > 0)
      {
        bestCity := i;
        lastDest := dest[corentCity, i] * dest[i, corentCity] * -1;
      }
    }
    newDest := lastDest;
    ScanInRange(m, corentCity, N);
    dest[corentCity, bestCity] := -1;
    dest[bestCity, corentCity] := -1;
    SnapshotIs(dest, Erase(m, corentCity, bestCity));
  }

  // ---------------------------------------------------------------------
  // ft_calcul_total_dest

  datatype Step = Step(city: int, dist: int)

  /** The steps a walk takes, and the table it leaves behind. */
  datatype Tour = Tour(steps: seq<Step>, rest: Matrix)

  /** The walk from `c` on a road table: repeat `get_next_city` until it
      reports -1. That last step is not part of the tour, though its
      (empty) erasure is applied. */
  function Walk(m: Matrix, c: int): (t: Tour)
    requires RoadTable(m) && IsCity(c)
    ensures RoadTable(t.rest)
    decreases PosCount(m)
  {
    var ch := NextCity(m, c);
    StepErasesOneRoad(m, c);
    var next := Erase(m, c, ch.city);
    if ch.city == -1 || ch.dist == -1 then Tour([], next)
    else
      var t := Walk(next, ch.city);
      Tour([Step(ch.city, ch.dist)] + t.steps, t.rest)
  }

  /** One call of `get_next_city` and the walk that follows it: a step
      reporting -1 ends the walk on an unchanged table; any other step is
      the first of the walk, over one road fewer. */
  lemma WalkUnfold(m: Matrix, c: int)
    requires RoadTable(m) && IsCity(c)
    ensures var ch := NextCity(m, c);
            var next := Erase(m, c, ch.city);
            && IsCity(ch.city) && RoadTable(next)
            && (ch.dist == -1 ==> next == m && Walk(m, c) == Tour([], m))
            && (ch.dist != -1 ==>
                  && ch.dist > 0
                  && PosCount(next) == PosCount(m) - 1
                  && Walk(m, c) == Tour([Step(ch.city, ch.dist)] + Walk(next, ch.city).steps,
                                        Walk(next, ch.city).rest))
  {
    StepErasesOneRoad(m, c);
  }

  /** The sum of the distances of the steps. */
  function TotalDistance(steps: seq<Step>): int {
    if steps == [] then 0 else TotalDistance(steps[..|steps| - 1]) + steps[|steps| - 1].dist
  }

  /** Adding a step to the tour adds its distance to the total. */
  lemma TotalDistanceAppend(steps: seq<Step>, s: Step)
    ensures TotalDistance(steps + [s]) == TotalDistance(steps) + s.dist
  {
    assert (steps + [s])[..|steps|] == steps;
  }

  /** Where a walk stands after the steps `done`: on table `m` at city `c`,
      the planned `tour` is `done` followed by the walk from there, or, once
      the last lookup reported -1 (`stuck`), `done` on the table left. */
  ghost predicate Ahead(tour: Tour, done: seq<Step>, m: Matrix, c: int, stuck: bool) {
    && RoadTable(m) && IsCity(c)
    && (stuck ==> tour == Tour(done, m))
    && (!stuck ==> tour == Tour(done + Walk(m, c).steps, Walk(m, c).rest))
  }

  /** One lookup moves a walk that is not stuck along: a road found, of
      length `d` to city `b`, is appended to the steps, added to the total
      and erased from the table; no road leaves the walk stuck with the table
      unchanged. */
  lemma WalkStep(tour: Tour, done: seq<Step>, m: Matrix, c: int, b: int, d: int)
    requires Ahead(tour, done, m, c, false)
    requires Choice(b, d) == NextCity(m, c)
    ensures IsCity(b)
    ensures d == -1 ==> Ahead(tour, done, Erase(m, c, b), b, true)
    ensures d != -1 ==>
              && PosCount(Erase(m, c, b)) < PosCount(m)
              && Ahead(tour, done + [Step(b, d)], Erase(m, c, b), b, false)
              && TotalDistance(done + [Step(b, d)]) == TotalDistance(done) + d
  {
    var next := Erase(m, c, b);
    WalkUnfold(m, c);
    if d == -1 {
      assert done + [] == done;
    } else {
      var rest := Walk(next, b).steps;
      assert done + ([Step(b, d)] + rest) == (done + [Step(b, d)]) + rest;
      TotalDistanceAppend(done, Step(b, d));
    }
  }

  /** One turn of the loop of `ft_calcul_total_dest`: look up the next
      city, add the distance if a road was found, and move there. */
  method Turn(city: int, totalDest: int, dest: array2<int>, ghost tour: Tour, ghost done: seq<Step>)
    returns (bestCity: int, newDest: int, total: int, ghost done': seq<Step>)
    requires dest.Length0 == N && dest.Length1 == N
    requires Ahead(tour, done, Snapshot(dest), city, false)
    requires totalDest == TotalDistance(done)
    modifies dest
    ensures Choice(bestCity, newDest) == NextCity(old(Snapshot(dest)), city)
    ensures Snapshot(dest) == Erase(old(Snapshot(dest)), city, bestCity)
    ensures total == totalDest + (if newDest == -1 then 0 else newDest)
    ensures done' == if newDest == -1 then done else done + [Step(bestCity, newDest)]
    ensures Ahead(tour, done', Snapshot(dest), bestCity, newDest == -1)
    ensures total == TotalDistance(done')
    ensures PosCount(Snapshot(dest)) + (if newDest == -1 then 0 else 1) < PosCount(old(Snapshot(dest))) + 1
  {
    ghost var m := Snapshot(dest);
    bestCity, newDest := GetNextCity(city, dest);
    WalkStep(tour, done, m, city, bestCity, newDest);
    total, done' := totalDest, done;
    if bestCity != -1 && newDest != -1 {
      total := totalDest + newDest;
      done' := done + [Step(bestCity, newDest)];
    }
  }

  /** `ft_calcul_total_dest` from city `corentCity`: the total it prints
      is the sum of the distances of the walk's steps, and the table is left
      with the walk's roads erased. */
  method CalculTotalDest(corentCity: int, dest: array2<int>) returns (totalDest: int)
    requires dest.Length0 == N && dest.Length1 == N && IsCity(corentCity)
    requires RoadTable(Snapshot(dest))
    modifies dest
    ensures totalDest == TotalDistance(Walk(old(Snapshot(dest)), corentCity).steps)
    ensures Snapshot(dest) == Walk(old(Snapshot(dest)), corentCity).rest
  {
    ghost var tour := Walk(Snapshot(dest), corentCity);
    ghost var done: seq<Step> := [];
    var city := corentCity;
    var newDest := 0;
    totalDest := 0;
    var bestCity := city;
    assert done + tour.steps == tour.steps;
    while bestCity != -1 && newDest != -1
      invariant bestCity == city
      invariant Ahead(tour, done, Snapshot(dest), city, newDest == -1)
      invariant totalDest == TotalDistance(done)
      decreases PosCount(Snapshot(dest)) + (if newDest == -1 then 0 else 1)
    {
      bestCity, newDest, totalDest, done := Turn(city, totalDest, dest, tour, done);
      city := bestCity;
    }
  }

  // ---------------------------------------------------------------------
  // What the walk promises

  /** Each step of a walk erases exactly one road: the steps taken plus
      the roads left are the roads there were, so the walk takes at most
      as many steps as the table has roads. */
  lemma {:induction false} WalkAccounting(m: Matrix, c: int)
    requires RoadTable(m) && IsCity(c)
    ensures var t := Walk(m, c);
            |t.steps| + PosCount(t.rest) == PosCount(m)
    decreases PosCount(m)
  {
    var ch := NextCity(m, c);
    WalkUnfold(m, c);
    if ch.dist != -1 {
      WalkAccounting(Erase(m, c, ch.city), ch.city);
    }
  }

  /** Every step of a walk goes to a city over a road of positive
      length, so each one adds to the total. */
  lemma {:induction false} WalkStepsPositive(m: Matrix, c: int)
    requires RoadTable(m) && IsCity(c)
    ensures forall s :: s in Walk(m, c).steps ==> IsCity(s.city) && s.dist > 0
    decreases PosCount(m)
  {
    var ch := NextCity(m, c);
    WalkUnfold(m, c);
    if ch.dist != -1 {
      WalkStepsPositive(Erase(m, c, ch.city), ch.city);
    }
  }

  /** A walk ends where it is stuck: no road is left touching the city
      it stopped at. */
  lemma {:induction false} WalkEndsStuck(m: Matrix, c: int)
    requires RoadTable(m) && IsCity(c)
    ensures var t := Walk(m, c);
            var last := if t.steps == [] then c else t.steps[|t.steps| - 1].city;
            IsCity(last) && forall i :: IsCity(i) ==> t.rest[last][i] == -1 && t.rest[i][last] == -1
    decreases PosCount(m)
  {
    var ch := NextCity(m, c);
    WalkUnfold(m, c);
    NextCityNearest(m, c);
    if ch.dist != -1 {
      var next := Erase(m, c, ch.city);
      WalkEndsStuck(next, ch.city);
    } else {
      forall i | IsCity(i) ensures m[c][i] == -1 && m[i][c] == -1 {
        assert Weight(m, c, i) == -1;
      }
    }
  }

  // ---------------------------------------------------------------------
  // What the initial table holds

  lemma {:induction false} CountPosNone(row: seq<int>)
    requires forall k :: 0 <= k < |row| ==> row[k] <= 0
    ensures CountPos(row) == 0
  {
    if row != [] {
      CountPosNone(row[1..]);
    }
  }

  lemma {:induction false} PosCountNone(m: Matrix)
    requires forall i, j :: 0 <= i < |m| && 0 <= j < |m[i]| ==> m[i][j] <= 0
    ensures PosCount(m) == 0
  {
    if m != [] {
      CountPosNone(m[0]);
      PosCountNone(m[1..]);
    }
  }

  /** A road table whose roads all lie above the diagonal. */
  predicate UpperRoadTable(m: Matrix) {
    && RoadTable(m)
    && forall i, j :: 0 <= j <= i < N ==> m[i][j] == -1
  }

  /** Writing a new road above the diagonal keeps the shape and adds one
      road. */
  lemma AddRoad(m: Matrix, i: int, j: int, v: int)
    requires UpperRoadTable(m) && 0 <= i < j < N && v > 0 && m[i][j] == -1
    ensures UpperRoadTable(SetCell(m, i, j, v))
    ensures PosCount(SetCell(m, i, j, v)) == PosCount(m) + 1
  {
  }

  /** The rows from city `c` on hold no road yet. */
  predicate BlankFrom(m: Matrix, c: int)
    requires WellFormed(m)
  {
    forall i, j :: 0 <= i < N && c <= i && 0 <= j < N ==> m[i][j] == -1
  }

  /** The writes from Tétouan, on a table whose rows from Tétouan on
      are blank, add 4 roads above the diagonal and leave the later rows blank. */
  lemma RoadsFromTetouan(m: Matrix)
    requires UpperRoadTable(m) && BlankFrom(m, 0)
    ensures UpperRoadTable(FromTetouan(m)) && BlankFrom(FromTetouan(m), 1)
    ensures PosCount(FromTetouan(m)) == PosCount(m) + 4
  {
    AddRoad(m, 0, 1, 61);
    var m1 := SetCell(m, 0, 1, 61);
    AddRoad(m1, 0, 2, 63);
    var m2 := SetCell(m1, 0, 2, 63);
    AddRoad(m2, 0, 3, 144);
    var m3 := SetCell(m2, 0, 3, 144);
    AddRoad(m3, 0, 4, 128);
  }

  /** The writes from Tanger, on a table whose rows from Tanger on
      are blank, add 1 road above the diagonal and leave the later rows blank. */
  lemma RoadsFromTanger(m: Matrix)
    requires UpperRoadTable(m) && BlankFrom(m, 1)
    ensures UpperRoadTable(FromTanger(m)) && BlankFrom(FromTanger(m), 2)
    ensures PosCount(FromTanger(m)) == PosCount(m) + 1
  {
    AddRoad(m, 1, 3, 64);
  }

  /** The writes from Chefchaouen, on a table whose rows from Chefchaouen on
      are blank, add 2 roads above the diagonal and leave the later rows blank. */
  lemma RoadsFromChefchaouen(m: Matrix)
    requires UpperRoadTable(m) && BlankFrom(m, 2)
    ensures UpperRoadTable(FromChefchaouen(m)) && BlankFrom(FromChefchaouen(m), 3)
    ensures PosCount(FromChefchaouen(m)) == PosCount(m) + 2
  {
    AddRoad(m, 2, 4, 70);
    var m1 := SetCell(m, 2, 4, 70);
    AddRoad(m1, 2, 5, 168);
  }

  /** The writes from Larache, on a table whose rows from Larache on
      are blank, add 3 roads above the diagonal and leave the later rows blank. */
  lemma RoadsFromLarache(m: Matrix)
    requires UpperRoadTable(m) && BlankFrom(m, 3)
    ensures UpperRoadTable(FromLarache(m)) && BlankFrom(FromLarache(m), 4)
    ensures PosCount(FromLarache(m)) == PosCount(m) + 3
  {
    AddRoad(m, 3, 4, 82);
    var m1 := SetCell(m, 3, 4, 82);
    AddRoad(m1, 3, 5, 122);
    var m2 := SetCell(m1, 3, 5, 122);
    AddRoad(m2, 3, 7, 225);
  }

  /** The writes from Ouazzane, on a table whose rows from Ouazzane on
      are blank, add 2 roads above the diagonal and leave the later rows blank. */
  lemma RoadsFromOuazzane(m: Matrix)
    requires UpperRoadTable(m) && BlankFrom(m, 4)
    ensures UpperRoadTable(FromOuazzane(m)) && BlankFrom(FromOuazzane(m), 5)
    ensures PosCount(FromOuazzane(m)) == PosCount(m) + 2
  {
    AddRoad(m, 4, 5, 130);
    var m1 := SetCell(m, 4, 5, 130);
    AddRoad(m1, 4, 7, 146);
  }

  /** The writes from Kenitra, on a table whose rows from Kenitra on
      are blank, add 3 roads above the diagonal and leave the later rows blank. */
  lemma RoadsFromKenitra(m: Matrix)
    requires UpperRoadTable(m) && BlankFrom(m, 5)
    ensures UpperRoadTable(FromKenitra(m)) && BlankFrom(FromKenitra(m), 6)
    ensures PosCount(FromKenitra(m)) == PosCount(m) + 3
  {
    AddRoad(m, 5, 6, 39);
    var m1 := SetCell(m, 5, 6, 39);
    AddRoad(m1, 5, 7, 148);
    var m2 := SetCell(m1, 5, 7, 148);
    AddRoad(m2, 5, 8, 523);
  }

  /** The writes from Rabat, on a table whose rows from Rabat on
      are blank, add 1 road above the diagonal and leave the later rows blank. */
  lemma RoadsFromRabat(m: Matrix)
    requires UpperRoadTable(m) && BlankFrom(m, 6)
    ensures UpperRoadTable(FromRabat(m)) && BlankFrom(FromRabat(m), 7)
    ensures PosCount(FromRabat(m)) == PosCount(m) + 1
  {
    AddRoad(m, 6, 7, 201);
  }

  /** The writes from FES, on a table whose rows from FES on
      are blank, add 1 road above the diagonal and leave the later rows blank. */
  lemma RoadsFromFes(m: Matrix)
    requires UpperRoadTable(m) && BlankFrom(m, 7)
    ensures UpperRoadTable(FromFes(m)) && BlankFrom(FromFes(m), 8)
    ensures PosCount(FromFes(m)) == PosCount(m) + 1
  {
    AddRoad(m, 7, 8, 331);
  }

  /** The blank table holds no road in any row. */
  lemma BlankHasNoRoads()
    ensures BlankFrom(Blank(), 0)
  {
  }

  /** The writes from Tétouan to Larache, on a table without roads, add
      10 roads above the diagonal and leave the rows from Ouazzane on blank. */
  lemma FirstRoads(m0: Matrix)
    requires UpperRoadTable(m0) && BlankFrom(m0, 0)
    ensures var m4 := FromLarache(FromChefchaouen(FromTanger(FromTetouan(m0))));
            && UpperRoadTable(m4) && BlankFrom(m4, 4)
            && PosCount(m4) == PosCount(m0) + 10
  {
    RoadsFromTetouan(m0);
    var m1 := FromTetouan(m0);
    RoadsFromTanger(m1);
    var m2 := FromTanger(m1);
    RoadsFromChefchaouen(m2);
    var m3 := FromChefchaouen(m2);
    RoadsFromLarache(m3);
  }

  /** The writes from Ouazzane to FES, on a table whose rows from Ouazzane
      on are blank, add 7 roads above the diagonal. */
  lemma LastRoads(m4: Matrix)
    requires UpperRoadTable(m4) && BlankFrom(m4, 4)
    ensures var m8 := FromFes(FromRabat(FromKenitra(FromOuazzane(m4))));
            && UpperRoadTable(m8)
            && PosCount(m8) == PosCount(m4) + 7
  {
    RoadsFromOuazzane(m4);
    var m5 := FromOuazzane(m4);
    RoadsFromKenitra(m5);
    var m6 := FromKenitra(m5);
    RoadsFromRabat(m6);
    var m7 := FromRabat(m6);
    RoadsFromFes(m7);
  }

  /** The road writes on a table without roads give a table with 17 roads,
      all above the diagonal. */
  lemma WriteRoadsOnEmpty(m0: Matrix)
    requires WellFormed(m0) && BlankFrom(m0, 0)
    ensures UpperRoadTable(WriteRoads(m0))
    ensures PosCount(WriteRoads(m0)) == 17
  {
    PosCountNone(m0);
    FirstRoads(m0);
    LastRoads(FromLarache(FromChefchaouen(FromTanger(FromTetouan(m0)))));
  }

  /** The writes from Tétouan, on a table whose rows from Tétouan on are
      blank, fill that city's row and leave the other rows alone. */
  lemma RowFromTetouan(m: Matrix)
    requires WellFormed(m) && BlankFrom(m, 0)
    ensures BlankFrom(FromTetouan(m), 1)
    ensures FromTetouan(m)[0] == [-1, 61, 63, 144, 128, -1, -1, -1, -1]
    ensures forall y :: 0 <= y < N && y != 0 ==> FromTetouan(m)[y] == m[y]
  {
  }

  /** The writes from Tanger, on a table whose rows from Tanger on are
      blank, fill that city's row and leave the other rows alone. */
  lemma RowFromTanger(m: Matrix)
    requires WellFormed(m) && BlankFrom(m, 1)
    ensures BlankFrom(FromTanger(m), 2)
    ensures FromTanger(m)[1] == [-1, -1, -1, 64, -1, -1, -1, -1, -1]
    ensures forall y :: 0 <= y < N && y != 1 ==> FromTanger(m)[y] == m[y]
  {
  }

  /** The writes from Chefchaouen, on a table whose rows from Chefchaouen on are
      blank, fill that city's row and leave the other rows alone. */
  lemma RowFromChefchaouen(m: Matrix)
    requires WellFormed(m) && BlankFrom(m, 2)
    ensures BlankFrom(FromChefchaouen(m), 3)
    ensures FromChefchaouen(m)[2] == [-1, -1, -1, -1, 70, 168, -1, -1, -1]
    ensures forall y :: 0 <= y < N && y != 2 ==> FromChefchaouen(m)[y] == m[y]
  {
  }

  /** The writes from Larache, on a table whose rows from Larache on are
      blank, fill that city's row and leave the other rows alone. */
  lemma RowFromLarache(m: Matrix)
    requires WellFormed(m) && BlankFrom(m, 3)
    ensures BlankFrom(FromLarache(m), 4)
    ensures FromLarache(m)[3] == [-1, -1, -1, -1, 82, 122, -1, 225, -1]
    ensures forall y :: 0 <= y < N && y != 3 ==> FromLarache(m)[y] == m[y]
  {
  }

  /** The writes from Ouazzane, on a table whose rows from Ouazzane on are
      blank, fill that city's row and leave the other rows alone. */
  lemma RowFromOuazzane(m: Matrix)
    requires WellFormed(m) && BlankFrom(m, 4)
    ensures BlankFrom(FromOuazzane(m), 5)
    ensures FromOuazzane(m)[4] == [-1, -1, -1, -1, -1, 130, -1, 146, -1]
    ensures forall y :: 0 <= y < N && y != 4 ==> FromOuazzane(m)[y] == m[y]
  {
  }

  /** The writes from Kenitra, on a table whose rows from Kenitra on are
      blank, fill that city's row and leave the other rows alone. */
  lemma RowFromKenitra(m: Matrix)
    requires WellFormed(m) && BlankFrom(m, 5)
    ensures BlankFrom(FromKenitra(m), 6)
    ensures FromKenitra(m)[5] == [-1, -1, -1, -1, -1, -1, 39, 148, 523]
    ensures forall y :: 0 <= y < N && y != 5 ==> FromKenitra(m)[y] == m[y]
  {
  }

  /** The writes from Rabat, on a table whose rows from Rabat on are
      blank, fill that city's row and leave the other rows alone. */
  lemma RowFromRabat(m: Matrix)
    requires WellFormed(m) && BlankFrom(m, 6)
    ensures BlankFrom(FromRabat(m), 7)
    ensures FromRabat(m)[6] == [-1, -1, -1, -1, -1, -1, -1, 201, -1]
    ensures forall y :: 0 <= y < N && y != 6 ==> FromRabat(m)[y] == m[y]
  {
  }

  /** The writes from FES, on a table whose rows from FES on are
      blank, fill that city's row and leave the other rows alone. */
  lemma RowFromFes(m: Matrix)
    requires WellFormed(m) && BlankFrom(m, 7)
    ensures BlankFrom(FromFes(m), 8)
    ensures FromFes(m)[7] == [-1, -1, -1, -1, -1, -1, -1, -1, 331]
    ensures forall y :: 0 <= y < N && y != 7 ==> FromFes(m)[y] == m[y]
  {
  }

  /** A table whose rows are those of the distance table is that table. */
  lemma TableByRows(m: Matrix)
    requires |m| == N
    requires m[0] == [-1, 61, 63, 144, 128, -1, -1, -1, -1]
    requires m[1] == [-1, -1, -1, 64, -1, -1, -1, -1, -1]
    requires m[2] == [-1, -1, -1, -1, 70, 168, -1, -1, -1]
    requires m[3] == [-1, -1, -1, -1, 82, 122, -1, 225, -1]
    requires m[4] == [-1, -1, -1, -1, -1, 130, -1, 146, -1]
    requires m[5] == [-1, -1, -1, -1, -1, -1, 39, 148, 523]
    requires m[6] == [-1, -1, -1, -1, -1, -1, -1, 201, -1]
    requires m[7] == [-1, -1, -1, -1, -1, -1, -1, -1, 331]
    requires m[8] == [-1, -1, -1, -1, -1, -1, -1, -1, -1]
    ensures m == DistanceTable
  {
  }

  /** The writes from Tétouan to Larache, on a table without roads, fill
      rows 0 to 3 and leave the later rows blank. */
  lemma FirstRowsTable(m0: Matrix)
    requires WellFormed(m0) && BlankFrom(m0, 0)
    ensures var m4 := FromLarache(FromChefchaouen(FromTanger(FromTetouan(m0))));
            && BlankFrom(m4, 4)
            && m4[0] == [-1, 61, 63, 144, 128, -1, -1, -1, -1]
            && m4[1] == [-1, -1, -1, 64, -1, -1, -1, -1, -1]
            && m4[2] == [-1, -1, -1, -1, 70, 168, -1, -1, -1]
            && m4[3] == [-1, -1, -1, -1, 82, 122, -1, 225, -1]
  {
    RowFromTetouan(m0);
    var m1 := FromTetouan(m0);
    RowFromTanger(m1);
    var m2 := FromTanger(m1);
    RowFromChefchaouen(m2);
    var m3 := FromChefchaouen(m2);
    RowFromLarache(m3);
    var m4 := FromLarache(m3);
    assert m4[0] == m1[0];
    assert m4[1] == m2[1];
    assert m4[2] == m3[2];
  }

  /** The writes from Ouazzane to FES, on a table whose rows from Ouazzane
      on are blank, fill rows 4 to 7 and leave the other rows alone. */
  lemma LastRowsTable(m4: Matrix)
    requires WellFormed(m4) && BlankFrom(m4, 4)
    ensures var m8 := FromFes(FromRabat(FromKenitra(FromOuazzane(m4))));
            && (forall y :: 0 <= y < 4 ==> m8[y] == m4[y])
            && m8[4] == [-1, -1, -1, -1, -1, 130, -1, 146, -1]
            && m8[5] == [-1, -1, -1, -1, -1, -1, 39, 148, 523]
            && m8[6] == [-1, -1, -1, -1, -1, -1, -1, 201, -1]
            && m8[7] == [-1, -1, -1, -1, -1, -1, -1, -1, 331]
            && m8[8] == [-1, -1, -1, -1, -1, -1, -1, -1, -1]
  {
    RowFromOuazzane(m4);
    var m5 := FromOuazzane(m4);
    RowFromKenitra(m5);
    var m6 := FromKenitra(m5);
    RowFromRabat(m6);
    var m7 := FromRabat(m6);
    RowFromFes(m7);
    var m8 := FromFes(m7);
    assert m8[4] == m5[4];
    assert m8[5] == m6[5];
    assert m8[6] == m7[6];
    assert m8[8] == m4[8];
  }

  /** The road writes on a table without roads give exactly the distance
      table: each row is written once and left alone by the later writes. */
  lemma WriteRoadsTable(m0: Matrix)
    requires WellFormed(m0) && BlankFrom(m0, 0)
    ensures WriteRoads(m0) == DistanceTable
  {
    FirstRowsTable(m0);
    var m4 := FromLarache(FromChefchaouen(FromTanger(FromTetouan(m0))));
    LastRowsTable(m4);
    TableByRows(FromFes(FromRabat(FromKenitra(FromOuazzane(m4)))));
  }

  /** The table ft_init_dest builds is the distance table. */
  lemma InitialTable()
    ensures InitialMatrix() == DistanceTable
  {
    BlankHasNoRoads();
    WriteRoadsTable(Blank());
  }

  /** The table ft_init_dest builds is a road table holding 17 roads, all
      above the diagonal. */
  lemma InitialRoads()
    ensures UpperRoadTable(InitialMatrix())
    ensures PosCount(InitialMatrix()) == 17
  {
    BlankHasNoRoads();
    WriteRoadsOnEmpty(Blank());
  }

  /** Whatever city the walk starts from on the initial table, it takes
      at most 17 steps, each over a road of the table. */
  lemma WalkFromInitialTable(c: int)
    requires IsCity(c)
    ensures RoadTable(InitialMatrix())
    ensures |Walk(InitialMatrix(), c).steps| <= 17
  {
    InitialRoads();
    WalkAccounting(InitialMatrix(), c);
  }
}
