/** Blocking an answer by the names its CNAME records lead to
    (src/policy.rs, `apply_response`). */
module ResponseFilter {
  import opened Wrappers
  import opened CacheTypes
  import opened Responses

  /** `owner` has a CNAME of the class to `target`. */
  ghost predicate Linked(answers: seq<Record>, class_: nat, owner: Name, target: Name) {
    exists i :: 0 <= i < |answers| && Link(answers[i], class_, owner, target)
  }

  predicate Link(r: Record, class_: nat, owner: Name, target: Name) {
    r.class_ == class_ && r.name == owner && r.data == Cname(target)
  }

  /** Each name of the path is linked to the next. */
  ghost predicate Path(answers: seq<Record>, class_: nat, path: seq<Name>) {
    path != [] && forall i :: 0 < i < |path| ==> Linked(answers, class_, path[i - 1], path[i])
  }

  ghost predicate Joins(answers: seq<Record>, class_: nat, path: seq<Name>, from: Name, to: Name) {
    Path(answers, class_, path) && path[0] == from && path[|path| - 1] == to
  }

  ghost predicate Reachable(answers: seq<Record>, class_: nat, from: Name, to: Name) {
    exists path :: Joins(answers, class_, path, from, to)
  }

  lemma ReachesItself(answers: seq<Record>, class_: nat, from: Name)
    ensures Reachable(answers, class_, from, from)
  {
    assert Joins(answers, class_, [from], from, from);
  }

  lemma ReachesOn(answers: seq<Record>, class_: nat, from: Name, to: Name, next: Name)
    requires Reachable(answers, class_, from, to) && Linked(answers, class_, to, next)
    ensures Reachable(answers, class_, from, next)
  {
    hide Linked;
    var path :| Joins(answers, class_, path, from, to);
    assert Joins(answers, class_, path + [next], from, next);
  }

  /** A set that holds the start and every link out of it holds all it reaches. */
  lemma {:induction false} ClosedHoldsAll(answers: seq<Record>, class_: nat, closed: set<Name>, path: seq<Name>)
    requires Path(answers, class_, path) && path[0] in closed
    requires forall a, b :: a in closed && Linked(answers, class_, a, b) ==> b in closed
    ensures path[|path| - 1] in closed
    decreases |path|
  {
    hide Linked;
    if |path| > 1 {
      var n := |path| - 1;
      assert Path(answers, class_, path[..n]);
      ClosedHoldsAll(answers, class_, closed, path[..n]);
      assert Linked(answers, class_, path[n - 1], path[n]);
    }
  }

  /** The names an answer can lead to. */
  function Targets(answers: seq<Record>): (s: set<Name>)
    ensures forall i :: 0 <= i < |answers| && answers[i].data.Cname? ==> answers[i].data.target in s
  {
    if answers == [] then {}
    else
      var n := |answers| - 1;
      Targets(answers[..n]) + (if answers[n].data.Cname? then {answers[n].data.target} else {})
  }

  lemma LinkedIsTarget(answers: seq<Record>, class_: nat, owner: Name, target: Name)
    requires Linked(answers, class_, owner, target)
    ensures target in Targets(answers)
  {
  }

  /** The table of links holds exactly the links of the answers. */
  ghost predicate Table(links: map<Name, seq<Name>>, answers: seq<Record>, class_: nat) {
    forall owner: Name, target: Name :: Listed(links, owner, target) <==> Linked(answers, class_, owner, target)
  }

  ghost predicate Listed(links: map<Name, seq<Name>>, owner: Name, target: Name) {
    owner in links && target in links[owner]
  }

  method BuildLinks(answers: seq<Record>, class_: nat) returns (links: map<Name, seq<Name>>)
    ensures Table(links, answers, class_)
  {
    hide Table;
    links := map[];
    assert Table(links, answers[..0], class_) by { NoLinks(answers, class_); }
    for k := 0 to |answers|
      invariant Table(links, answers[..k], class_)
    {
      var r := answers[k];
      AddLink(links, answers, class_, k);
      if r.class_ == class_ && r.data.Cname? {
        var so := if r.name in links then links[r.name] else [];
        links := links[r.name := so + [r.data.target]];
      }
    }
    assert answers[..|answers|] == answers;
  }

  lemma NoLinks(answers: seq<Record>, class_: nat)
    ensures Table(map[], answers[..0], class_)
  {
  }

  lemma AddLink(links: map<Name, seq<Name>>, answers: seq<Record>, class_: nat, k: nat)
    requires k < |answers| && Table(links, answers[..k], class_)
    ensures var r := answers[k];
      if r.class_ == class_ && r.data.Cname? then
        Table(links[r.name := (if r.name in links then links[r.name] else []) + [r.data.target]], answers[..k + 1],
              class_)
      else
        Table(links, answers[..k + 1], class_)
  {
    hide Linked;
    var r := answers[k];
    var links' :=
      if r.class_ == class_ && r.data.Cname? then
        links[r.name := (if r.name in links then links[r.name] else []) + [r.data.target]]
      else links;
    forall owner: Name, target: Name
      ensures Listed(links', owner, target) <==> Linked(answers[..k + 1], class_, owner, target)
    {
      OneMore(answers, class_, k, owner, target);
      assert Listed(links, owner, target) <==> Linked(answers[..k], class_, owner, target);
    }
  }

  lemma OneMore(answers: seq<Record>, class_: nat, k: nat, owner: Name, target: Name)
    requires k < |answers|
    ensures Linked(answers[..k + 1], class_, owner, target) <==>
      (Linked(answers[..k], class_, owner, target) || Link(answers[k], class_, owner, target))
  {
    if Linked(answers[..k], class_, owner, target) {
      var i :| 0 <= i < k && Link(answers[..k][i], class_, owner, target);
      assert Link(answers[..k + 1][i], class_, owner, target);
    }
    if Link(answers[k], class_, owner, target) {
      assert Link(answers[..k + 1][k], class_, owner, target);
    }
    if Linked(answers[..k + 1], class_, owner, target) {
      var i :| 0 <= i < k + 1 && Link(answers[..k + 1][i], class_, owner, target);
      if i < k {
        assert Link(answers[..k][i], class_, owner, target);
      }
    }
  }

  /** What the search has established: everything seen or waiting is reachable,
      nothing seen is blocked, and every link out of what was seen is accounted
      for. */
  ghost predicate Searching(answers: seq<Record>, class_: nat, start: Name, block: Name -> Option<Message>,
                            visited: set<Name>, pending: seq<Name>) {
    && (forall n :: n in visited || n in pending ==> Reachable(answers, class_, start, n))
    && (forall n :: n in visited ==> block(n).None?)
    && (forall a, b :: a in visited && Linked(answers, class_, a, b) ==> b in visited || b in pending)
    && (start in visited || start in pending)
    && (forall n :: n in visited || n in pending ==> n == start || n in Targets(answers))
  }

  /** A name that was seen before adds nothing. */
  lemma SeenBefore(answers: seq<Record>, class_: nat, start: Name, block: Name -> Option<Message>, visited: set<Name>,
                   pending: seq<Name>)
    requires pending != [] && Searching(answers, class_, start, block, visited,
                                        pending) && pending[|pending| - 1] in visited
    ensures Searching(answers, class_, start, block, visited, pending[..|pending| - 1])
  {
    hide Reachable, Linked;
    assert pending == pending[..|pending| - 1] + [pending[|pending| - 1]];
  }

  /** A new name that is not blocked hands on to its targets. */
  lemma SeenNow(answers: seq<Record>, class_: nat, start: Name, block: Name -> Option<Message>, visited: set<Name>,
                pending: seq<Name>,
                targets: seq<Name>)
    requires pending != [] && Searching(answers, class_, start, block, visited, pending)
    requires block(pending[|pending| - 1]).None?
    requires forall b :: b in targets <==> Linked(answers, class_, pending[|pending| - 1], b)
    ensures Searching(answers, class_, start, block, visited + {pending[|pending| - 1]},
                      pending[..|pending| - 1] + targets)
  {
    hide Reachable, Linked;
    var name := pending[|pending| - 1];
    assert pending == pending[..|pending| - 1] + [name];
    forall b | b in targets ensures Reachable(answers, class_, start, b) && b in Targets(answers) {
      ReachesOn(answers, class_, start, name, b);
      LinkedIsTarget(answers, class_, name, b);
    }
  }

  /** A search that ran dry saw every reachable name. */
  lemma RanDry(answers: seq<Record>, class_: nat, start: Name, block: Name -> Option<Message>, visited: set<Name>)
    requires Searching(answers, class_, start, block, visited, [])
    ensures forall n :: Reachable(answers, class_, start, n) ==> block(n).None?
  {
    hide Linked;
    forall n | Reachable(answers, class_, start, n) ensures block(n).None? {
      var path :| Joins(answers, class_, path, start, n);
      ClosedHoldsAll(answers, class_, visited, path);
    }
  }

  /** Replaces the answer exactly if a blocked name is reachable from the question
      through CNAMEs of its class, by the answer for such a name; otherwise it
      leaves the response as it is.  `block` gives the answer for a blocked name;
      without any rule there is none. */
  method ApplyResponse(start: Name, class_: nat, response: Message, rules: nat, block: Name -> Option<Message>)
    returns (r: Message, blocked: Option<Name>)
    requires rules == 0 ==> forall n :: block(n).None?
    ensures blocked.Some? <==> exists n :: Reachable(response.answers, class_, start, n) && block(n).Some?
    ensures blocked.Some? ==> Reachable(response.answers, class_, start,
                                        blocked.value) && block(blocked.value) == Some(r)
    ensures blocked.None? ==> r == response
  {
    hide Reachable, Linked, Searching, Targets;
    r, blocked := response, None;
    if rules == 0 {
      return;
    }
    var answers := response.answers;
    var links := BuildLinks(answers, class_);
    var pending, visited := [start], {};
    ghost var universe := Targets(answers) + {start};
    Starts(answers, class_, start, block);
    while pending != []
      invariant Searching(answers, class_, start, block, visited, pending)
      decreases universe - visited, |pending|
    {
      var name := pending[|pending| - 1];
      Known(answers, class_, start, block, visited, pending);
      if name in visited {
        SeenBefore(answers, class_, start, block, visited, pending);
        pending := pending[..|pending| - 1];
      } else {
        if block(name).Some? {
          return block(name).value, Some(name);
        }
        var targets := if name in links then links[name] else [];
        assert forall b :: b in targets <==> Listed(links, name, b);
        SeenNow(answers, class_, start, block, visited, pending, targets);
        assert name in universe - visited;
        visited := visited + {name};
        pending := pending[..|pending| - 1] + targets;
      }
    }
    RanDry(answers, class_, start, block, visited);
  }

  lemma Starts(answers: seq<Record>, class_: nat, start: Name, block: Name -> Option<Message>)
    ensures Searching(answers, class_, start, block, {}, [start])
  {
    ReachesItself(answers, class_, start);
  }

  lemma Known(answers: seq<Record>, class_: nat, start: Name, block: Name -> Option<Message>, visited: set<Name>,
              pending: seq<Name>)
    requires pending != [] && Searching(answers, class_, start, block, visited, pending)
    ensures Reachable(answers, class_, start, pending[|pending| - 1])
    ensures pending[|pending| - 1] == start || pending[|pending| - 1] in Targets(answers)
  {
    hide Reachable, Linked;
  }
}
