/** internal/protectionblueprints/match.go, `assign`: filling every required role with a
    different image by augmenting paths, over three arrays updated in place. */
module RoleAssignment {
  import opened Sets
  import ImageRef

  /** Role `role` may be filled by image `index`. */
  ghost predicate Fits(images: seq<string>, groups: seq<seq<string>>, role: int, index: int) {
    && 0 <= role < |groups| && 0 <= index < |images|
    && ImageRef.MatchesSome(images[index], groups[role])
  }

  /** An assignment gives each role a fitting image or -1, and no image twice. */
  ghost predicate Valid(images: seq<string>, groups: seq<seq<string>>, a: seq<int>) {
    && |a| == |groups|
    && (forall r | 0 <= r < |a| :: a[r] == -1 || Fits(images, groups, r, a[r]))
    && (forall r, s | 0 <= r < s < |a| :: a[r] == a[s] ==> a[r] == -1)
  }

  ghost function Filled(a: seq<int>): set<int> {
    set r | 0 <= r < |a| && a[r] != -1
  }

  ghost predicate Full(a: seq<int>) {
    forall r | 0 <= r < |a| :: a[r] != -1
  }

  ghost predicate Fillable(images: seq<string>, groups: seq<seq<string>>) {
    exists a :: Valid(images, groups, a) && Full(a)
  }

  /** All images that fit some role of `roles`. */
  ghost function Candidates(images: seq<string>, groups: seq<seq<string>>, roles: set<int>): set<int> {
    set i | 0 <= i < |images| && FitsSome(images, groups, roles, i)
  }

  ghost predicate FitsSome(images: seq<string>, groups: seq<seq<string>>, roles: set<int>, index: int) {
    exists r :: r in roles && Fits(images, groups, r, index)
  }

  /** Hall's condition fails: these roles compete for one image too few. */
  ghost predicate HallViolator(images: seq<string>, groups: seq<seq<string>>, roles: set<int>) {
    && (forall r | r in roles :: 0 <= r < |groups|)
    && |Candidates(images, groups, roles)| == |roles| - 1
  }

  /** Role `r` competes for one image too few with filled roles that were placed before it. */
  ghost predicate Blocked(images: seq<string>, groups: seq<seq<string>>, a: seq<int>, r: int) {
    exists roles :: BlockedBy(images, groups, a, r, roles)
  }

  ghost predicate BlockedBy(images: seq<string>, groups: seq<seq<string>>, a: seq<int>, r: int, roles: set<int>) {
    && r in roles && HallViolator(images, groups, roles)
    && forall s | s in roles && s != r :: s < r && s in Filled(a)
  }

  // ----- state of the search -----

  /** `roleOf` and `imageOf` are inverse to each other, except that `roleOf[stale]` may
      still name a role that has since been given another image. */
  ghost predicate Coherent(images: seq<string>, groups: seq<seq<string>>, roleOf: seq<int>, imageOf: seq<int>,
                           stale: int)
  {
    && |roleOf| == |images| && |imageOf| == |groups|
    && (forall r | 0 <= r < |groups| ::
          imageOf[r] == -1 || (Fits(images, groups, r, imageOf[r]) && roleOf[imageOf[r]] == r))
    && (forall i | 0 <= i < |images| && roleOf[i] != -1 ::
          0 <= roleOf[i] < |groups| && (i == stale || imageOf[roleOf[i]] == i))
  }

  /** Every image a dead role could use is held by a dead role. */
  ghost predicate Closed(images: seq<string>, groups: seq<seq<string>>, roleOf: seq<int>, dead: set<int>)
    requires |roleOf| == |images|
  {
    && (forall r | r in dead :: 0 <= r < |groups|)
    && (forall r, i | r in dead && Fits(images, groups, r, i) :: roleOf[i] in dead)
  }

  ghost function Unvisited(visited: seq<bool>): set<int> {
    set i | 0 <= i < |visited| && !visited[i]
  }

  /** All images for `role` are visited, and so are all images for the holder of each newly visited image. */
  ghost predicate Explored(images: seq<string>, groups: seq<seq<string>>, roleOf: seq<int>, role: int,
                           before: seq<bool>, after: seq<bool>)
    requires |roleOf| == |images| == |before| == |after|
  {
    && (forall j | Fits(images, groups, role, j) :: after[j])
    && (forall i | 0 <= i < |after| && after[i] && !before[i] ::
          roleOf[i] != -1 && forall j | Fits(images, groups, roleOf[i], j) :: after[j])
  }

  /** What a successful search for `role` has done to the two arrays. */
  ghost predicate Augmented(images: seq<string>, groups: seq<seq<string>>, role: int, dead: set<int>, before: seq<bool>,
                            roleOf: seq<int>, imageOf: seq<int>, roleOf': seq<int>, imageOf': seq<int>)
    requires |roleOf| == |roleOf'| == |images| == |before| && |imageOf| == |imageOf'| == |groups|
    requires 0 <= role < |groups|
  {
    && Coherent(images, groups, roleOf', imageOf', imageOf[role])
    && LittleMoved(images, groups, role, dead, before, roleOf, imageOf, roleOf', imageOf')
  }

  /** `role` now has an image that was unvisited; visited images, roles on visited images and
      images of dead roles have kept their partners; no other role was filled or emptied. */
  ghost predicate LittleMoved(images: seq<string>, groups: seq<seq<string>>, role: int, dead: set<int>,
                              before: seq<bool>, roleOf: seq<int>, imageOf: seq<int>, roleOf': seq<int>,
                              imageOf': seq<int>)
    requires |roleOf| == |roleOf'| == |images| == |before| && |imageOf| == |imageOf'| == |groups|
    requires 0 <= role < |groups|
  {
    && 0 <= imageOf'[role] < |images| && !before[imageOf'[role]]
    && (forall r | 0 <= r < |groups| && r != role :: imageOf'[r] == -1 <==> imageOf[r] == -1)
    && (forall r | 0 <= r < |groups| && r != role ::
          (0 <= imageOf[r] < |images| && before[imageOf[r]]) ==> imageOf'[r] == imageOf[r])
    && (forall i | 0 <= i < |images| && before[i] :: roleOf'[i] == roleOf[i])
    && (forall i | 0 <= i < |images| && roleOf[i] in dead :: roleOf'[i] == roleOf[i])
  }

  /** What a search for `role` has established once it has looked at the first `index` images. */
  ghost predicate Searched(images: seq<string>, groups: seq<seq<string>>, roleOf: seq<int>, role: int, index: int,
                           before: seq<bool>, visited: seq<bool>)
    requires |roleOf| == |images| == |before| == |visited|
  {
    && (forall i | 0 <= i < |images| && before[i] :: visited[i])
    && (forall i | 0 <= i < index && Fits(images, groups, role, i) :: visited[i])
    && (forall i | 0 <= i < |images| && visited[i] && !before[i] ::
          roleOf[i] != -1 && forall j | Fits(images, groups, roleOf[i], j) :: visited[j])
  }

  lemma SearchedAfterSkip(images: seq<string>, groups: seq<seq<string>>, roleOf: seq<int>, role: int, index: int,
                          before: seq<bool>, visited: seq<bool>)
    requires |roleOf| == |images| == |before| == |visited| && 0 <= index < |images|
    requires Searched(images, groups, roleOf, role, index, before, visited)
    requires visited[index] || !Fits(images, groups, role, index)
    ensures Searched(images, groups, roleOf, role, index + 1, before, visited)
  {
  }

  lemma SearchedAfterFailure(images: seq<string>, groups: seq<seq<string>>, roleOf: seq<int>, role: int, index: int,
                             before: seq<bool>, v0: seq<bool>, v1: seq<bool>)
    requires |roleOf| == |images| == |before| == |v0| == |v1| && 0 <= index < |images|
    requires Searched(images, groups, roleOf, role, index, before, v0)
    requires roleOf[index] != -1
    requires forall i | 0 <= i < |images| && v0[index := true][i] :: v1[i]
    requires Explored(images, groups, roleOf, roleOf[index], v0[index := true], v1)
    ensures Searched(images, groups, roleOf, role, index + 1, before, v1)
  {
    assert v0[index := true][index];
    forall i | 0 <= i < |images| && v1[i] && !before[i]
      ensures roleOf[i] != -1 && forall j | Fits(images, groups, roleOf[i], j) :: v1[j]
    {
      if i != index && v0[i] {
        assert v0[index := true][i];
        forall j | Fits(images, groups, roleOf[i], j) ensures v1[j] {
          assert v0[index := true][j];
        }
      }
    }
    forall i | 0 <= i < |images| && v0[i] ensures v1[i] {
      assert v0[index := true][i];
    }
  }

  /** A free image is given to `role`. */
  lemma LinkFree(images: seq<string>, groups: seq<seq<string>>, role: int, index: int, dead: set<int>,
                 before: seq<bool>, roleOf: seq<int>, imageOf: seq<int>)
    requires |before| == |images| && Coherent(images, groups, roleOf, imageOf, -1)
    requires Fits(images, groups, role, index) && !before[index] && roleOf[index] == -1
    requires imageOf[role] == -1 || before[imageOf[role]]
    requires Closed(images, groups, roleOf, dead)
    ensures role !in dead
    ensures Augmented(images, groups, role, dead, before, roleOf, imageOf,
                      roleOf[index := role], imageOf[role := index])
  {
  }

  /** The image's holder has moved elsewhere, and the image is given to `role`. */
  lemma LinkMoved(images: seq<string>, groups: seq<seq<string>>, role: int, index: int, dead: set<int>,
                  before: seq<bool>, visited: seq<bool>,
                  roleOf: seq<int>, imageOf: seq<int>, roleOf': seq<int>, imageOf': seq<int>)
    requires |before| == |visited| == |images| && Coherent(images, groups, roleOf, imageOf, -1)
    requires Fits(images, groups, role, index) && !before[index] && visited[index]
    requires forall i | 0 <= i < |images| && before[i] :: visited[i]
    requires imageOf[role] == -1 || before[imageOf[role]]
    requires Closed(images, groups, roleOf, dead)
    requires roleOf[index] != -1 && roleOf[index] !in dead
    requires |roleOf'| == |roleOf| && |imageOf'| == |imageOf|
    requires Augmented(images, groups, roleOf[index], dead, visited, roleOf, imageOf, roleOf', imageOf')
    ensures role !in dead
    ensures Augmented(images, groups, role, dead, before, roleOf, imageOf,
                      roleOf'[index := role], imageOf'[role := index])
  {
    var holder := roleOf[index];
    assert imageOf[holder] == index && role != holder;
    assert imageOf'[role] == imageOf[role];
    assert roleOf'[index] == holder && imageOf'[holder] != index;
    LinkCoherent(images, groups, role, index, imageOf[role], roleOf', imageOf');
  }

  lemma LinkCoherent(images: seq<string>, groups: seq<seq<string>>, role: int, index: int, left: int,
                     roleOf: seq<int>, imageOf: seq<int>)
    requires Coherent(images, groups, roleOf, imageOf, index)
    requires Fits(images, groups, role, index) && left == imageOf[role]
    requires 0 <= roleOf[index] < |groups| && imageOf[roleOf[index]] != index
    ensures Coherent(images, groups, roleOf[index := role], imageOf[role := index], left)
  {
    assert forall r | 0 <= r < |groups| :: imageOf[r] != index;
  }

  /** Tries to free an image for `role`. A failure changes neither array and explores a set
      of roles that is closed; a success never disturbs the images held by `dead` roles. */
  method Augment(images: seq<string>, groups: seq<seq<string>>, role: nat, visited: array<bool>,
                 roleOf: array<int>, imageOf: array<int>, ghost dead: set<int>)
    returns (ok: bool)
    requires visited.Length == roleOf.Length == |images| && imageOf.Length == |groups|
    requires role < |groups| && roleOf != imageOf
    requires Coherent(images, groups, roleOf[..], imageOf[..], -1)
    requires imageOf[role] == -1 || visited[imageOf[role]]
    requires Closed(images, groups, roleOf[..], dead)
    modifies visited, roleOf, imageOf
    ensures forall i | 0 <= i < |images| :: old(visited[i]) ==> visited[i]
    ensures !ok ==> roleOf[..] == old(roleOf[..]) && imageOf[..] == old(imageOf[..])
    ensures !ok ==> Explored(images, groups, roleOf[..], role, old(visited[..]), visited[..])
    ensures ok ==> role !in dead
    ensures ok ==> Augmented(images, groups, role, dead, old(visited[..]), old(roleOf[..]), old(imageOf[..]),
                             roleOf[..], imageOf[..])
    decreases Unvisited(visited[..]), 0
  {
    ghost var before, roleOf0, imageOf0 := visited[..], roleOf[..], imageOf[..];
    for index := 0 to |images|
      invariant roleOf[..] == roleOf0 && imageOf[..] == imageOf0
      invariant Searched(images, groups, roleOf0, role, index, before, visited[..])
    {
      var fits := ImageRef.MatchesAny(images[index], groups[role]);
      assert fits <==> Fits(images, groups, role, index);
      if visited[index] || !fits {
        SearchedAfterSkip(images, groups, roleOf0, role, index, before, visited[..]);
        continue;
      }
      ghost var v0 := visited[..];
      visited[index] := true;
      assert visited[..] == v0[index := true];
      assert index in Unvisited(before) && index !in Unvisited(visited[..]);
      var taken := Take(images, groups, role, index, visited, roleOf, imageOf, dead, before);
      if taken {
        return true;
      }
      SearchedAfterFailure(images, groups, roleOf0, role, index, before, v0, visited[..]);
    }
    return false;
  }

  /** `role` takes image `index` if it is free, or if its current holder can be moved. While
      the holder is being moved `roleOf[index]` still names it; the assignment here ends that. */
  method Take(images: seq<string>, groups: seq<seq<string>>, role: nat, index: nat, visited: array<bool>,
              roleOf: array<int>, imageOf: array<int>, ghost dead: set<int>, ghost before: seq<bool>)
    returns (ok: bool)
    requires visited.Length == roleOf.Length == |images| == |before| && imageOf.Length == |groups|
    requires role < |groups| && roleOf != imageOf
    requires Coherent(images, groups, roleOf[..], imageOf[..], -1)
    requires Fits(images, groups, role, index) && !before[index] && visited[index]
    requires forall i | 0 <= i < |images| :: before[i] ==> visited[i]
    requires imageOf[role] == -1 || before[imageOf[role]]
    requires Closed(images, groups, roleOf[..], dead)
    modifies visited, roleOf, imageOf
    ensures forall i | 0 <= i < |images| :: old(visited[i]) ==> visited[i]
    ensures !ok ==> roleOf[..] == old(roleOf[..]) && imageOf[..] == old(imageOf[..])
    ensures !ok ==> roleOf[index] != -1
                    && Explored(images, groups, roleOf[..], roleOf[index], old(visited[..]), visited[..])
    ensures ok ==> role !in dead
    ensures ok ==> Augmented(images, groups, role, dead, before, old(roleOf[..]), old(imageOf[..]),
                             roleOf[..], imageOf[..])
    decreases Unvisited(visited[..]), 1
  {
    ghost var v0, roleOf0, imageOf0 := visited[..], roleOf[..], imageOf[..];
    ok := roleOf[index] == -1;
    if ok {
      LinkFree(images, groups, role, index, dead, before, roleOf0, imageOf0);
    } else {
      ok := Augment(images, groups, roleOf[index], visited, roleOf, imageOf, dead);
      if ok {
        LinkMoved(images, groups, role, index, dead, before, v0, roleOf0, imageOf0, roleOf[..], imageOf[..]);
      }
    }
    if ok {
      roleOf[index] := role;
      imageOf[role] := index;
    }
  }

  // ----- what a failed search proves -----

  /** The roles met by a failed search: the one it started from and the holders it could not move. */
  ghost function ExploredRoles(roleOf: seq<int>, role: int, visited: seq<bool>): set<int>
    requires |roleOf| == |visited|
  {
    {role} + set i | 0 <= i < |visited| && visited[i] :: roleOf[i]
  }

  ghost function Visited(visited: seq<bool>): set<int> {
    set i | 0 <= i < |visited| && visited[i]
  }

  /** A failed search from a role without an image has found a Hall violator: the images it
      visited are all the candidates of the roles it met, one fewer than those roles. */
  lemma FailedSearchIsHallViolator(images: seq<string>, groups: seq<seq<string>>, roleOf: seq<int>, imageOf: seq<int>,
                                   role: int, visited: seq<bool>)
    requires Coherent(images, groups, roleOf, imageOf, -1) && |visited| == |images|
    requires 0 <= role < |groups| && imageOf[role] == -1
    requires Explored(images, groups, roleOf, role, seq(|images|, _ => false), visited)
    ensures HallViolator(images, groups, ExploredRoles(roleOf, role, visited))
    ensures Candidates(images, groups, ExploredRoles(roleOf, role, visited)) == Visited(visited)
    ensures forall s | s in ExploredRoles(roleOf, role, visited) && s != role :: s in Filled(imageOf)
  {
    HoldersAreFilled(images, groups, roleOf, imageOf, role, visited);
    ExploredCandidates(images, groups, roleOf, role, visited);
    assert ExploredRoles(roleOf, role, visited) == {role} + Image(Visited(visited), roleOf);
    ImageCardinality(Visited(visited), roleOf);
  }

  lemma ExploredCandidates(images: seq<string>, groups: seq<seq<string>>, roleOf: seq<int>, role: int,
                           visited: seq<bool>)
    requires |roleOf| == |visited| == |images|
    requires forall j | Fits(images, groups, role, j) :: visited[j]
    requires forall i | 0 <= i < |images| && visited[i] ::
               Fits(images, groups, roleOf[i], i) && forall j | Fits(images, groups, roleOf[i], j) :: visited[j]
    ensures Candidates(images, groups, ExploredRoles(roleOf, role, visited)) == Visited(visited)
  {
    var roles := ExploredRoles(roleOf, role, visited);
    forall i | i in Visited(visited) ensures FitsSome(images, groups, roles, i) {
      assert Fits(images, groups, roleOf[i], i) && roleOf[i] in roles;
    }
  }

  lemma HoldersAreFilled(images: seq<string>, groups: seq<seq<string>>, roleOf: seq<int>, imageOf: seq<int>,
                         role: int, visited: seq<bool>)
    requires Coherent(images, groups, roleOf, imageOf, -1) && |visited| == |images|
    requires Explored(images, groups, roleOf, role, seq(|images|, _ => false), visited)
    ensures forall i | 0 <= i < |images| && visited[i] ::
              roleOf[i] in Filled(imageOf) && imageOf[roleOf[i]] == i && Fits(images, groups, roleOf[i], i)
              && forall j | Fits(images, groups, roleOf[i], j) :: visited[j]
  {
    var none := seq(|images|, _ => false);
    assert forall i | 0 <= i < |images| && visited[i] :: !none[i];
  }

  ghost function Image(s: set<int>, f: seq<int>): set<int>
    requires forall i | i in s :: 0 <= i < |f|
  {
    set i | i in s :: f[i]
  }

  lemma {:induction false} ImageCardinality(s: set<int>, f: seq<int>)
    requires forall i | i in s :: 0 <= i < |f|
    requires forall i, j | i in s && j in s && i != j :: f[i] != f[j]
    ensures |Image(s, f)| == |s|
  {
    if s != {} {
      var x := Member(s);
      ImageCardinality(s - {x}, f);
      assert Image(s, f) == Image(s - {x}, f) + {f[x]};
    }
  }

  /** No valid assignment fills all roles of a Hall violator. */
  lemma HallViolatorBlocks(images: seq<string>, groups: seq<seq<string>>, roles: set<int>, a: seq<int>)
    requires HallViolator(images, groups, roles) && Valid(images, groups, a)
    ensures !(roles <= Filled(a))
  {
    if roles <= Filled(a) {
      FilledRolesUseCandidates(images, groups, roles, a);
    }
  }

  /** Roles filled together take that many different candidates. */
  lemma FilledRolesUseCandidates(images: seq<string>, groups: seq<seq<string>>, roles: set<int>, a: seq<int>)
    requires Valid(images, groups, a) && roles <= Filled(a)
    ensures |roles| <= |Candidates(images, groups, roles)|
  {
    ImageCardinality(roles, a);
    var used := Image(roles, a);
    forall i | i in used ensures i in Candidates(images, groups, roles) {
      var r :| r in roles && a[r] == i;
      assert Fits(images, groups, r, i);
    }
    SubsetCardinality(used, Candidates(images, groups, roles));
  }

  /** When every role left empty belongs to a closed set, no assignment fills more roles. */
  lemma ClosedIsMaximum(images: seq<string>, groups: seq<seq<string>>, roleOf: seq<int>, imageOf: seq<int>,
                        dead: set<int>, other: seq<int>)
    requires Coherent(images, groups, roleOf, imageOf, -1) && Closed(images, groups, roleOf, dead)
    requires forall r | 0 <= r < |groups| && imageOf[r] == -1 :: r in dead
    requires Valid(images, groups, other)
    ensures |Filled(other)| <= |Filled(imageOf)|
  {
    var mine, theirs := Filled(imageOf), Filled(other);
    var contested := Candidates(images, groups, theirs * dead);
    FilledRolesUseCandidates(images, groups, theirs * dead, other);
    forall i | i in contested ensures 0 <= i < |roleOf| && roleOf[i] in mine * dead {
      var r :| r in theirs * dead && Fits(images, groups, r, i);
    }
    ImageCardinality(contested, roleOf);
    SubsetCardinality(Image(contested, roleOf), mine * dead);
    assert |theirs * dead| <= |mine * dead|;
    SubsetCardinality(theirs - dead, mine - dead);
    SplitCardinality(theirs, dead);
    SplitCardinality(mine, dead);
  }

  /** The roles before `role` have been tried: each one left empty is blocked, and belongs to
      a closed set that later searches cannot disturb. */
  ghost predicate Tried(images: seq<string>, groups: seq<seq<string>>, roleOf: seq<int>, imageOf: seq<int>, role: int,
                        dead: set<int>)
  {
    && 0 <= role <= |groups|
    && Coherent(images, groups, roleOf, imageOf, -1) && Closed(images, groups, roleOf, dead)
    && (forall r | role <= r < |groups| :: imageOf[r] == -1)
    && (forall r | 0 <= r < role && imageOf[r] == -1 :: r in dead && Blocked(images, groups, imageOf, r))
  }

  lemma BlockedMonotone(images: seq<string>, groups: seq<seq<string>>, a: seq<int>, b: seq<int>, r: int)
    requires Blocked(images, groups, a, r) && Filled(a) <= Filled(b)
    ensures Blocked(images, groups, b, r)
  {
    var roles :| BlockedBy(images, groups, a, r, roles);
    assert BlockedBy(images, groups, b, r, roles);
  }

  /** A success never makes an impossible role possible. */
  lemma TriedAfterSuccess(images: seq<string>, groups: seq<seq<string>>, role: int, dead: set<int>, before: seq<bool>,
                          roleOf: seq<int>, imageOf: seq<int>, roleOf': seq<int>, imageOf': seq<int>)
    requires |roleOf| == |roleOf'| == |images| == |before| && |imageOf| == |imageOf'| == |groups|
    requires role < |groups| && Tried(images, groups, roleOf, imageOf, role, dead)
    requires Augmented(images, groups, role, dead, before, roleOf, imageOf, roleOf', imageOf')
    ensures Tried(images, groups, roleOf', imageOf', role + 1, dead)
    ensures forall r | 0 <= r < role :: imageOf'[r] == -1 <==> imageOf[r] == -1
    ensures imageOf'[role] != -1
  {
    assert Filled(imageOf) <= Filled(imageOf');
    forall r | 0 <= r < role && imageOf'[r] == -1 ensures Blocked(images, groups, imageOf', r) {
      BlockedMonotone(images, groups, imageOf, imageOf', r);
    }
  }

  lemma TriedAfterFailure(images: seq<string>, groups: seq<seq<string>>, role: int, dead: set<int>,
                          roleOf: seq<int>, imageOf: seq<int>, visited: seq<bool>)
    requires |roleOf| == |images| == |visited| && role < |groups|
    requires Tried(images, groups, roleOf, imageOf, role, dead)
    requires Explored(images, groups, roleOf, role, seq(|images|, _ => false), visited)
    ensures Tried(images, groups, roleOf, imageOf, role + 1, dead + ExploredRoles(roleOf, role, visited))
  {
    var roles := ExploredRoles(roleOf, role, visited);
    FailedSearchIsHallViolator(images, groups, roleOf, imageOf, role, visited);
    assert BlockedBy(images, groups, imageOf, role, roles);
    ExploredIsClosed(images, groups, roleOf, role, visited);
    ClosedUnion(images, groups, roleOf, dead, roles);
  }

  lemma ClosedUnion(images: seq<string>, groups: seq<seq<string>>, roleOf: seq<int>, a: set<int>, b: set<int>)
    requires |roleOf| == |images|
    requires Closed(images, groups, roleOf, a) && Closed(images, groups, roleOf, b)
    ensures Closed(images, groups, roleOf, a + b)
  {
  }

  lemma ExploredIsClosed(images: seq<string>, groups: seq<seq<string>>, roleOf: seq<int>, role: int, visited: seq<bool>)
    requires |roleOf| == |images| == |visited|
    requires Explored(images, groups, roleOf, role, seq(|images|, _ => false), visited)
    requires forall r | r in ExploredRoles(roleOf, role, visited) :: 0 <= r < |groups|
    ensures Closed(images, groups, roleOf, ExploredRoles(roleOf, role, visited))
  {
    var none := seq(|images|, _ => false);
    forall r, i | r in ExploredRoles(roleOf, role, visited) && Fits(images, groups, r, i)
      ensures visited[i]
    {
      if r != role {
        var k :| 0 <= k < |visited| && visited[k] && roleOf[k] == r;
        assert !none[k];
      }
    }
  }

  /** The full matching of the roles, or as much of it as exists.

      `complete` is exact, the assignment is of maximum size even when incomplete, and each
      role left empty was already impossible given the roles that precede it. */
  method Assign(images: seq<string>, groups: seq<seq<string>>) returns (result: seq<int>, complete: bool)
    ensures Valid(images, groups, result)
    ensures complete <==> Full(result)
    ensures complete <==> Fillable(images, groups)
    ensures forall other | Valid(images, groups, other) :: |Filled(other)| <= |Filled(result)|
    ensures forall r | 0 <= r < |groups| && result[r] == -1 :: Blocked(images, groups, result, r)
  {
    var roleOf := new int[|images|](_ => -1);
    var imageOf := new int[|groups|](_ => -1);
    ghost var dead: set<int> := {};
    complete := true;
    for role := 0 to |groups|
      invariant Tried(images, groups, roleOf[..], imageOf[..], role, dead)
      invariant complete <==> forall r | 0 <= r < role :: imageOf[r] != -1
    {
      var visited := new bool[|images|](_ => false);
      ghost var none, roleOf0, imageOf0 := visited[..], roleOf[..], imageOf[..];
      assert none == seq(|images|, _ => false);
      var ok := Augment(images, groups, role, visited, roleOf, imageOf, dead);
      if ok {
        TriedAfterSuccess(images, groups, role, dead, none, roleOf0, imageOf0, roleOf[..], imageOf[..]);
      } else {
        complete := false;
        TriedAfterFailure(images, groups, role, dead, roleOf0, imageOf0, visited[..]);
        dead := dead + ExploredRoles(roleOf0, role, visited[..]);
      }
    }
    result := imageOf[..];
    TriedAll(images, groups, roleOf[..], result, dead);
  }

  lemma TriedAll(images: seq<string>, groups: seq<seq<string>>, roleOf: seq<int>, imageOf: seq<int>, dead: set<int>)
    requires Tried(images, groups, roleOf, imageOf, |groups|, dead)
    ensures Valid(images, groups, imageOf)
    ensures forall other | Valid(images, groups, other) :: |Filled(other)| <= |Filled(imageOf)|
    ensures Full(imageOf) <==> Fillable(images, groups)
  {
    forall other | Valid(images, groups, other) ensures |Filled(other)| <= |Filled(imageOf)| {
      ClosedIsMaximum(images, groups, roleOf, imageOf, dead, other);
    }
    MaximumDecides(images, groups, imageOf);
  }

  /** A maximum assignment is full exactly when some assignment is. */
  lemma MaximumDecides(images: seq<string>, groups: seq<seq<string>>, a: seq<int>)
    requires Valid(images, groups, a)
    requires forall other | Valid(images, groups, other) :: |Filled(other)| <= |Filled(a)|
    ensures Full(a) <==> Fillable(images, groups)
  {
    if Fillable(images, groups) {
      var other :| Valid(images, groups, other) && Full(other);
      assert Filled(a) <= Filled(other);
      if r :| 0 <= r < |a| && a[r] == -1 {
        SubsetCardinality(Filled(a), Filled(other) - {r});
      }
    }
  }
}
