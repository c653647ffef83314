/** Qualified names of the members of nested struct types. */
module StructPaths {
  import opened Options

  /** A member has a name, a type, and its initial value, range and alias, taken together. */
  datatype Member = Member(name: string, kind: Type, attributes: string)

  datatype Type =
    | Atomic(name: string)
    | Struct(name: string, members: seq<Member>)

  const OUTERMOST := "global"
  const GLOBAL := OUTERMOST + "."

  /** Names of siblings are different, and no name contains the separator. */
  ghost predicate Proper(t: Type) {
    t.Struct? ==>
      && (forall i, j | 0 <= i < j < |t.members| :: t.members[i].name != t.members[j].name)
      && (forall m | m in t.members :: '.' !in m.name && Proper(m.kind))
  }

  // ----- listing

  function Prepend(x: string, ps: seq<seq<string>>): seq<seq<string>> {
    seq(|ps|, i requires 0 <= i < |ps| => [x] + ps[i])
  }

  /** The paths to the atomic members, in order. */
  function Paths(ms: seq<Member>): seq<seq<string>> {
    if ms == [] then [] else PathsOf(ms[0]) + Paths(ms[1..])
  }

  function PathsOf(m: Member): seq<seq<string>> {
    match m.kind
    case Atomic(_) => [[m.name]]
    case Struct(_, members) => Prepend(m.name, Paths(members))
  }

  function Join(p: seq<string>): string {
    if |p| == 0 then "" else if |p| == 1 then p[0] else p[0] + "." + Join(p[1..])
  }

  function Joined(current: string, ps: seq<seq<string>>): seq<string> {
    seq(|ps|, i requires 0 <= i < |ps| => current + Join(ps[i]))
  }

  /** Walks through the members and lists the qualified names of the atomic ones. */
  method AllAtomicMemberNames(ms: seq<Member>, current: string) returns (vec: seq<string>)
    ensures vec == Joined(current, Paths(ms))
    decreases ms
  {
    hide Paths, Joined, PathsOf;
    vec := [];
    assert ms[0..] == ms;
    NothingListed(current, ms[|ms|..]);
    for i := 0 to |ms|
      invariant Joined(current, Paths(ms)) == vec + Joined(current, Paths(ms[i..]))
    {
      var m := ms[i];
      NextListed(current, ms, i);
      match m.kind {
        case Atomic(_) =>
          vec := vec + [current + m.name];
        case Struct(_, members) =>
          assert m.kind < m && m in ms;
          var vec2 := AllAtomicMemberNames(members, current + m.name + ".");
          vec := vec + vec2;
      }
    }
  }

  lemma NothingListed(current: string, ms: seq<Member>)
    requires ms == []
    ensures Joined(current, Paths(ms)) == []
  {}

  lemma NextListed(current: string, ms: seq<Member>, i: nat)
    requires i < |ms|
    ensures Joined(current, Paths(ms[i..])) ==
      (match ms[i].kind
       case Atomic(_) => [current + ms[i].name]
       case Struct(_, members) => Joined(current + ms[i].name + ".", Paths(members)))
      + Joined(current, Paths(ms[i + 1..]))
  {
    var m := ms[i];
    assert ms[i..][1..] == ms[i + 1..] && ms[i..][0] == m;
    JoinedAppend(current, PathsOf(m), Paths(ms[i + 1..]));
    match m.kind {
      case Atomic(_) => assert Joined(current, PathsOf(m)) == [current + m.name];
      case Struct(_, members) => JoinedBelow(current, m.name, members);
    }
  }

  lemma JoinedAppend(current: string, a: seq<seq<string>>, b: seq<seq<string>>)
    ensures Joined(current, a + b) == Joined(current, a) + Joined(current, b)
  {}

  lemma {:induction false} PathsNotEmpty(ms: seq<Member>)
    ensures forall p | p in Paths(ms) :: p != []
  {
    if ms != [] {
      PathsNotEmpty(ms[1..]);
    }
  }

  lemma JoinedBelow(current: string, name: string, members: seq<Member>)
    ensures Joined(current + name + ".", Paths(members)) == Joined(current, Prepend(name, Paths(members)))
  {
    PathsNotEmpty(members);
    var ps := Paths(members);
    forall i | 0 <= i < |ps|
      ensures current + name + "." + Join(ps[i]) == current + Join([name] + ps[i])
    {
      assert ps[i] in ps;
      assert ([name] + ps[i])[1..] == ps[i];
      assert current + name + "." + Join(ps[i]) == current + (name + "." + Join(ps[i]));
    }
  }

  // ----- splitting

  function Split(s: string): (r: seq<string>)
    ensures r != []
  {
    if s == "" then [""]
    else if s[0] == '.' then [""] + Split(s[1..])
    else
      var rest := Split(s[1..]);
      [[s[0]] + rest[0]] + rest[1..]
  }

  lemma {:induction false} SplitAt(a: string, b: string)
    requires '.' !in a
    ensures Split(a + "." + b) == [a] + Split(b)
    ensures Split(a) == [a]
  {
    if a == "" {
      assert "" + "." + b == "." + b;
      assert ("." + b)[1..] == b;
    } else {
      assert (a + "." + b)[1..] == a[1..] + "." + b;
      SplitAt(a[1..], b);
      assert a == [a[0]] + a[1..];
      assert (a + "." + b)[0] == a[0];
    }
  }

  /** Splitting undoes joining. */
  lemma {:induction false} SplitJoin(p: seq<string>)
    requires p != [] && forall x | x in p :: '.' !in x
    ensures Split(Join(p)) == p
  {
    if |p| == 1 {
      SplitAt(p[0], "");
    } else {
      SplitJoin(p[1..]);
      SplitAt(p[0], Join(p[1..]));
      assert p == [p[0]] + p[1..];
    }
  }

  method SplitAtDots(str: string) returns (split: seq<string>)
    ensures split == Split(str)
  {
    split := [];
    var s := str;
    var pos := 0;
    while pos < |s|
      invariant pos <= |s| && '.' !in s[..pos]
      invariant Split(str) == split + Split(s)
      decreases |s|, |s| - pos
    {
      if s[pos] == '.' {
        SplitAt(s[..pos], s[pos + 1..]);
        assert s == s[..pos] + "." + s[pos + 1..];
        split := split + [s[..pos]];
        s := s[pos + 1..];
        pos := 0;
      } else {
        assert s[..pos + 1] == s[..pos] + [s[pos]];
        pos := pos + 1;
      }
    }
    assert s[..pos] == s;
    SplitAt(s, "");
    split := split + [s];
  }

  // ----- looking up

  /** The first member of that name. */
  function Find(ms: seq<Member>, x: string): Option<Member> {
    if ms == [] then None else if ms[0].name == x then Some(ms[0]) else Find(ms[1..], x)
  }

  function Members(t: Type): seq<Member> {
    if t.Struct? then t.members else []
  }

  /** Follows the names from a type; the attributes are those of the last member. */
  function Follow(t: Type, attributes: string, p: seq<string>): Option<(Type, string)>
    decreases |p|
  {
    if p == [] then Some((t, attributes))
    else
      var m := Find(Members(t), p[0]);
      if m.None? then None else Follow(m.value.kind, m.value.attributes, p[1..])
  }

  function Dots(s: string): string {
    seq(|s|, i requires 0 <= i < |s| => if s[i] == '$' then '.' else s[i])
  }

  /** The names a qualified name stands for; a dollar sign in the first is turned into a dot. */
  function Parts(name: string): seq<string> {
    var vec := Split(name);
    [Dots(vec[0])] + vec[1..]
  }

  /** The member a qualified name stands for, with its attributes; for a name that starts with the
      global prefix, the type itself. */
  method DeriveSubTypeFor(t: Type, name: string) returns (r: Option<(Type, string)>)
    ensures r == if GLOBAL <= name then Some((t, "")) else Follow(t, "", Parts(name))
  {
    if GLOBAL <= name {
      return Some((t, ""));
    }
    var vec := SplitAtDots(name);
    vec := [Dots(vec[0])] + vec[1..];
    var child, attributes := t, "";
    for i := 0 to |vec|
      invariant Follow(t, "", vec) == Follow(child, attributes, vec[i..])
    {
      assert vec[i..][0] == vec[i] && vec[i..][1..] == vec[i + 1..];
      var members := Members(child);
      var k := 0;
      while k < |members| && members[k].name != vec[i]
        invariant k <= |members| && Find(members, vec[i]) == Find(members[k..], vec[i])
      {
        assert members[k..][1..] == members[k + 1..];
        k := k + 1;
      }
      if k == |members| {
        return None;
      }
      child, attributes := members[k].kind, members[k].attributes;
    }
    return Some((child, attributes));
  }

  lemma {:induction false} FindMember(ms: seq<Member>, m: Member)
    requires m in ms && forall i, j | 0 <= i < j < |ms| :: ms[i].name != ms[j].name
    ensures Find(ms, m.name) == Some(m)
  {
    if ms[0] != m {
      FindMember(ms[1..], m);
    }
  }

  lemma {:induction false} PathsMember(ms: seq<Member>, p: seq<string>)
    ensures p in Paths(ms) <==> exists m :: m in ms && p in PathsOf(m)
  {
    if ms != [] {
      PathsMember(ms[1..], p);
      if p in Paths(ms[1..]) {
        var m :| m in ms[1..] && p in PathsOf(m);
        assert m in ms;
      }
      if m :| m in ms && p in PathsOf(m) {
        assert m == ms[0] || m in ms[1..];
      }
    }
  }

  /** The member m stands at the end of the path. */
  ghost predicate StandsAt(t: Type, p: seq<string>, m: Member)
    decreases |p|
  {
    p != [] && exists c :: c in Members(t) && c.name == p[0] && (if |p| == 1 then c == m else StandsAt(c.kind, p[1..], m))
  }

  /** Following a path gives the type and the attributes of the member at its end, whatever else there
      is... */
  lemma {:induction false} FollowGives(t: Type, attributes: string, p: seq<string>, m: Member)
    requires Proper(t) && StandsAt(t, p, m)
    ensures Follow(t, attributes, p) == Some((m.kind, m.attributes))
    decreases |p|
  {
    var c :| c in Members(t) && c.name == p[0] && (if |p| == 1 then c == m else StandsAt(c.kind, p[1..], m));
    FindMember(Members(t), c);
    if |p| > 1 {
      FollowGives(c.kind, c.attributes, p[1..], m);
    } else {
      assert p[1..] == [];
    }
  }

  /** ...and nothing if there is no such member. */
  lemma {:induction false} FollowFinds(t: Type, attributes: string, p: seq<string>) returns (m: Member)
    requires p != [] && Follow(t, attributes, p).Some?
    ensures StandsAt(t, p, m)
    decreases |p|
  {
    FoundIsMember(Members(t), p[0]);
    m := Find(Members(t), p[0]).value;
    if |p| > 1 {
      var c := m;
      m := FollowFinds(c.kind, c.attributes, p[1..]);
      assert c in Members(t) && c.name == p[0] && StandsAt(c.kind, p[1..], m);
    }
  }

  predicate LeadsToLeaf(t: Type, attributes: string, p: seq<string>) {
    var r := Follow(t, attributes, p);
    r.Some? && r.value.0.Atomic?
  }

  /** A path is listed exactly if it leads to an atomic member. */
  lemma {:induction false} ListedLeads(t: Type, p: seq<string>)
    requires Proper(t) && t.Struct?
    ensures p in Paths(t.members) <==> p != [] && LeadsToLeaf(t, "", p)
    decreases t, 0
  {
    PathsMember(t.members, p);
    PathsNotEmpty(t.members);
    if p != [] {
      forall m | m in t.members
        ensures Find(t.members, m.name) == Some(m)
        ensures p in PathsOf(m) <==> m.name == p[0] && LeadsToLeaf(m.kind, m.attributes, p[1..])
      {
        FindMember(t.members, m);
        LeadsFrom(m, p);
      }
      FoundIsMember(t.members, p[0]);
    }
  }

  lemma {:induction false} FoundIsMember(ms: seq<Member>, x: string)
    ensures Find(ms, x).Some? ==> Find(ms, x).value in ms && Find(ms, x).value.name == x
  {
    if ms != [] {
      FoundIsMember(ms[1..], x);
    }
  }

  lemma {:induction false} LeadsFrom(m: Member, p: seq<string>)
    requires p != [] && Proper(m.kind)
    ensures p in PathsOf(m) <==> m.name == p[0] && LeadsToLeaf(m.kind, m.attributes, p[1..])
    decreases m.kind, 1
  {
    var rest := p[1..];
    if m.kind.Atomic? {
      assert rest != [] ==> Find(Members(m.kind), rest[0]).None?;
      assert p == [m.name] <==> m.name == p[0] && rest == [];
    } else {
      var ps := Paths(m.kind.members);
      ListedLeads(m.kind, rest);
      if p in Prepend(m.name, ps) {
        var i :| 0 <= i < |ps| && p == [m.name] + ps[i];
        assert rest == ps[i];
      }
      if rest in ps && m.name == p[0] {
        var i :| 0 <= i < |ps| && rest == ps[i];
        assert Prepend(m.name, ps)[i] == p;
      }
      if rest != [] {
        assert Follow(m.kind, m.attributes, rest) == Follow(m.kind, "", rest);
      }
    }
  }

  ghost predicate Once(ps: seq<seq<string>>) {
    forall i, j | 0 <= i < j < |ps| :: ps[i] != ps[j]
  }

  /** No path is listed twice. */
  lemma {:induction false} PathsOnce(ms: seq<Member>)
    requires forall i, j | 0 <= i < j < |ms| :: ms[i].name != ms[j].name
    requires forall m | m in ms :: Proper(m.kind)
    ensures Once(Paths(ms))
    decreases ms, 1
  {
    if ms != [] {
      var m, a, b := ms[0], PathsOf(ms[0]), Paths(ms[1..]);
      assert m in ms;
      PathsOnce(ms[1..]);
      PathsOfOnce(m);
      PathsNotEmpty(ms);
      forall p | p in a
        ensures p !in b
      {
        StartsWithName(m, p);
        PathsMember(ms[1..], p);
        forall m' | m' in ms[1..]
          ensures p !in PathsOf(m')
        {
          if p in PathsOf(m') {
            StartsWithName(m', p);
          }
        }
      }
      OnceAppend(a, b);
    }
  }

  lemma OnceAppend(a: seq<seq<string>>, b: seq<seq<string>>)
    requires Once(a) && Once(b) && forall p | p in a :: p !in b
    ensures Once(a + b)
  {
    var all := a + b;
    forall i, j | 0 <= i < j < |all|
      ensures all[i] != all[j]
    {
      assert i < |a| <= j ==> all[i] in a && all[j] in b;
    }
  }

  lemma {:induction false} PathsOfOnce(m: Member)
    requires Proper(m.kind)
    ensures Once(PathsOf(m))
    decreases m, 0
  {
    if m.kind.Struct? {
      var ps := Paths(m.kind.members);
      PathsOnce(m.kind.members);
      forall i, j | 0 <= i < j < |ps|
        ensures [m.name] + ps[i] != [m.name] + ps[j]
      {
        assert ([m.name] + ps[i])[1..] == ps[i] && ([m.name] + ps[j])[1..] == ps[j];
      }
    }
  }

  lemma StartsWithName(m: Member, p: seq<string>)
    requires p in PathsOf(m)
    ensures p != [] && p[0] == m.name
  {}

  lemma {:induction false} NoDotsOnPath(t: Type, attributes: string, p: seq<string>)
    requires Proper(t) && Follow(t, attributes, p).Some?
    ensures forall x | x in p :: '.' !in x
    decreases |p|
  {
    if p != [] {
      FoundIsMember(Members(t), p[0]);
      var m := Find(Members(t), p[0]).value;
      NoDotsOnPath(m.kind, m.attributes, p[1..]);
      assert p == [p[0]] + p[1..];
    }
  }

  /** Every atomic member is listed under exactly one name, and no name is listed twice. */
  lemma ListedOnce(t: Type)
    requires Proper(t) && t.Struct?
    ensures var names := Joined("", Paths(t.members));
      && (forall i, j | 0 <= i < j < |names| :: names[i] != names[j])
      && (forall p :: p != [] && LeadsToLeaf(t, "", p) ==> Join(p) in names)
  {
    var ps := Paths(t.members);
    var names := Joined("", ps);
    PathsOnce(t.members);
    forall i | 0 <= i < |ps|
      ensures Split(names[i]) == ps[i]
    {
      assert ps[i] in ps;
      ListedLeads(t, ps[i]);
      NoDotsOnPath(t, "", ps[i]);
      SplitJoin(ps[i]);
      assert names[i] == Join(ps[i]);
    }
    forall p | p != [] && LeadsToLeaf(t, "", p)
      ensures Join(p) in names
    {
      ListedLeads(t, p);
      var i :| 0 <= i < |ps| && ps[i] == p;
      assert names[i] == Join(p);
    }
  }

  /** The name looks global, or its first part has a dollar sign in it. */
  predicate Misread(p: seq<string>)
    requires p != []
  {
    (|p| >= 2 && p[0] == OUTERMOST) || '$' in p[0]
  }

  /** Looking up a listed name gives the member it was listed for, except exactly for the names that
      are misread: those come back as the whole type, or not at all. */
  lemma RoundTrip(t: Type, p: seq<string>)
    requires Proper(t) && t.Struct? && p in Paths(t.members)
    ensures var name := Join(p);
      var r := if GLOBAL <= name then Some((t, "")) else Follow(t, "", Parts(name));
      p != [] && LeadsToLeaf(t, "", p) && (r == Follow(t, "", p) <==> !Misread(p))
  {
    var name := Join(p);
    ListedLeads(t, p);
    NoDotsOnPath(t, "", p);
    SplitJoin(p);
    LooksGlobal(p);
    if !(GLOBAL <= name) {
      if '$' in p[0] {
        DotsAppear(p[0]);
        FoundIsMember(t.members, Dots(p[0]));
      } else {
        assert Dots(p[0]) == p[0];
        assert Parts(name) == p;
      }
    }
  }

  /** In terms of the member itself: a listed name that is not misread gives back its type and its
      attributes. */
  lemma LookupGives(t: Type, p: seq<string>, m: Member)
    requires Proper(t) && t.Struct? && StandsAt(t, p, m) && m.kind.Atomic?
    ensures p in Paths(t.members)
    ensures var name := Join(p);
      (if GLOBAL <= name then Some((t, "")) else Follow(t, "", Parts(name))) == Some((m.kind, m.attributes)) <==> !Misread(p)
  {
    FollowGives(t, "", p, m);
    ListedLeads(t, p);
    RoundTrip(t, p);
  }

  lemma DotsAppear(x: string)
    requires '$' in x
    ensures '.' in Dots(x)
  {
    var i :| 0 <= i < |x| && x[i] == '$';
    assert Dots(x)[i] == '.';
  }

  lemma StartsWithPart(outer: string, name: string)
    requires '.' !in outer && outer + "." <= name
    ensures |Split(name)| >= 2 && Split(name)[0] == outer
  {
    var n := |outer| + 1;
    assert name == outer + "." + name[n..];
    SplitAt(outer, name[n..]);
  }

  lemma LooksGlobal(p: seq<string>)
    requires p != [] && forall x | x in p :: '.' !in x
    ensures GLOBAL <= Join(p) <==> |p| >= 2 && p[0] == OUTERMOST
  {
    var name := Join(p);
    if GLOBAL <= name {
      StartsWithPart(OUTERMOST, name);
      SplitJoin(p);
    }
    if |p| >= 2 && p[0] == OUTERMOST {
      assert name == GLOBAL + Join(p[1..]);
    }
  }
}
