/** What a path names. */
module Paths {
  import opened Names

  // ----- components of a path -----

  lemma {:induction false} HeadOf(name: Name, rest: Name)
    requires SLASH !in name
    ensures Head(name + [SLASH] + rest) == name && Head(name) == name
  {
    if name == [] {
      assert name + [SLASH] + rest == [SLASH] + rest;
    } else {
      assert (name + [SLASH] + rest)[1..] == name[1..] + [SLASH] + rest;
      HeadOf(name[1..], rest);
    }
  }

  /** A name without a slash is its only component. */
  lemma OnePart(name: Name)
    requires name != [] && SLASH !in name
    ensures Parts(name) == [name]
  {
    HeadOf(name, []);
    assert name[|name|..] == [] && Parts([]) == [];
    assert name[0] in name;
  }

  lemma {:induction false} HeadJoin(p: Name, q: Name)
    ensures Head(p + [SLASH] + q) == Head(p)
  {
    if p == [] {
      assert p + [SLASH] + q == [SLASH] + q;
    } else if p[0] != SLASH {
      assert (p + [SLASH] + q)[1..] == p[1..] + [SLASH] + q;
      HeadJoin(p[1..], q);
    }
  }

  /** The components of two paths joined by a slash are those of the first, then those of the second. */
  lemma {:induction false} PartsJoin(p: Name, q: Name)
    ensures Parts(p + [SLASH] + q) == Parts(p) + Parts(q)
    decreases |p|
  {
    var s := p + [SLASH] + q;
    if p == [] {
      assert s == [SLASH] + q && s[1..] == q;
    } else if p[0] == SLASH {
      assert s[1..] == p[1..] + [SLASH] + q;
      PartsJoin(p[1..], q);
    } else {
      HeadJoin(p, q);
      var n := |Head(p)|;
      assert s[0] == p[0] && s[n..] == p[n..] + [SLASH] + q;
      PartsJoin(p[n..], q);
    }
  }

  /** `dir/name` names the file `name`, in the directory that is the first component of `dir`. */
  lemma PathTarget(dir: Name, name: Name)
    requires name != [] && SLASH !in name
    ensures Target(dir + [SLASH] + name) == name
    ensures Parts(dir + [SLASH] + name) == Parts(dir) + [name]
    ensures dir != [] && SLASH !in dir ==> Parts(dir + [SLASH] + name) == [dir, name]
  {
    PartsJoin(dir, name);
    OnePart(name);
    assert (dir + [SLASH] + name)[|dir|] == SLASH;
    if dir != [] && SLASH !in dir {
      OnePart(dir);
    }
  }
}
