/**
The data sources in the form of their source: linked objects, each holding a copy in `value` that
get(), evaluate() and set() overwrite and that updated() writes through to the parent.
*/
module DataSources {
  import opened Wrappers
  import opened GetterSetter

  class DataSource<T> {
    /** The source of the mirrored object and the field accessed; null and None for the root. */
    const object_: DataSource?<T>
    const lens: Option<Lens<T>>
    /** Whether the root can be evaluated; any other source can if the root can. */
    const evaluates: bool
    var value: T
    ghost const chain: set<DataSource<T>>
    ghost const lenses: seq<Lens<T>>

    /** `chain` are the sources from the root to this one, `lenses` the fields in between. */
    ghost predicate Valid()
      decreases |lenses|
    {
      if object_ == null then lens.None? && chain == {this} && lenses == []
      else
        && lens.Some?
        && chain == object_.chain + {this} && this !in object_.chain
        && lenses == object_.lenses + [lens.value]
        && evaluates == object_.evaluates
        && object_.Valid()
    }

    /** The root object and all copies down to this source. */
    ghost function Values(): (r: seq<T>)
      requires Valid()
      reads chain
      ensures |r| == |lenses| + 1 && r[|lenses|] == value
      decreases |lenses|
    {
      if object_ == null then [value] else object_.Values() + [value]
    }

    constructor Root(value: T, evaluates: bool)
      ensures Valid() && object_ == null && this.value == value && this.evaluates == evaluates
    {
      object_, lens, this.value, this.evaluates := null, None, value, evaluates;
      chain, lenses := {this}, [];
    }

    constructor Field(object_: DataSource<T>, lens: Lens<T>, defaultValue: T)
      requires object_.Valid()
      ensures Valid() && this.object_ == object_ && this.lens == Some(lens) && value == defaultValue
    {
      this.object_, this.lens, value, evaluates := object_, Some(lens), defaultValue, object_.evaluates;
      chain, lenses := object_.chain + {this}, object_.lenses + [lens];
    }

    method Get() returns (r: T)
      requires Valid()
      modifies chain
      ensures Values() == Fresh(old(Values())[0], lenses) && r == value
      decreases |lenses|
    {
      if object_ != null {
        var o := object_.Get();
        value := lens.value.get(o);
        FreshOfParent(old(Values())[0]);
      }
      return value;
    }

    lemma FreshOfParent(root: T)
      requires Valid() && object_ != null
      ensures var r := Fresh(root, object_.lenses);
              Fresh(root, lenses) == r + [lens.value.get(r[|object_.lenses|])]
    {
      FreshLast(root, lenses);
      assert lenses[..|lenses| - 1] == object_.lenses;
    }

    /** If the root cannot be evaluated no copy changes. */
    method Evaluate() returns (ok: bool)
      requires Valid()
      modifies chain
      ensures ok == evaluates
      ensures Values() == if ok then Fresh(old(Values())[0], lenses) else old(Values())
      decreases |lenses|
    {
      if object_ == null { return evaluates; }
      ok := object_.Evaluate();
      if !ok { return false; }
      value := lens.value.get(object_.value);
      FreshOfParent(old(Values())[0]);
      return true;
    }

    /** updated(): writes the copy into the parent's copy, which then does the same. */
    method Updated()
      requires Valid()
      modifies chain - {this}
      ensures Values() == WriteThrough(old(Values()), lenses, value)
      decreases |lenses|
    {
      if object_ != null {
        var newObject := lens.value.put(object_.value, value);
        WriteToParent(Values(), value);
        object_.value := newObject;
        SameButLast(old(object_.Values()), object_.Values(), object_.lenses);
        object_.Updated();
      }
    }

    lemma WriteToParent(values: seq<T>, v: T)
      requires Valid() && object_ != null && |values| == |lenses| + 1
      ensures var n := |object_.lenses|;
              WriteThrough(values, lenses, v) ==
              WriteThrough(values[..n + 1], object_.lenses, lens.value.put(values[n], v)) + [v]
    {
      WriteThroughLast(values, lenses, v);
      assert lenses[..|lenses| - 1] == object_.lenses;
    }

    method Set(t: T)
      requires Valid()
      modifies chain
      ensures Values() == WriteThrough(old(Values()), lenses, t) && value == t
    {
      value := t;
      SameButLast(old(Values()), Values(), lenses);
      Updated();
    }
  }

  /** A write does not depend on the last copy, which it overwrites. */
  lemma {:induction false} SameButLast<T>(a: seq<T>, b: seq<T>, ls: seq<Lens<T>>)
    requires |a| == |b| == |ls| + 1
    ensures a[..|ls|] == b[..|ls|] ==> forall v :: WriteThrough(a, ls, v) == WriteThrough(b, ls, v)
    decreases |ls|
  {
    if ls != [] && a[..|ls|] == b[..|ls|] {
      assert a[..|ls|][0] == b[..|ls|][0];
      assert a[1..][..|ls| - 1] == a[..|ls|][1..] && b[1..][..|ls| - 1] == b[..|ls|][1..];
      SameButLast(a[1..], b[1..], ls[1..]);
    }
  }
}
