/** What the models share: options, names, and lists without repetitions. */
module Wrappers {

  datatype Option<+T> = None | Some(value: T)

  /**
   A string that the program only compares for equality (IDs, hashes, magnets,
   users) is a number here that stands for its contents.
   */
  type Text = int

  const EMPTY: Text := 0

  /** A database call works, has no effect, or has its effect and loses the reply. */
  datatype Fault = NoFault | Lost | LostReply

  /** `order` lists `ids`, each once. */
  predicate Enumerates<T(==)>(order: seq<T>, ids: set<T>) {
    && (forall i, k :: 0 <= i < k < |order| ==> order[i] != order[k])
    && (forall i :: 0 <= i < |order| ==> order[i] in ids)
    && (forall id :: id in ids ==> id in order)
  }

  lemma EnumeratesNone<T>()
    ensures Enumerates<T>([], {})
  {
  }

  lemma EnumeratesNext<T>(order: seq<T>, ids: set<T>, id: T)
    requires Enumerates(order, ids) && id !in ids
    ensures Enumerates(order + [id], ids + {id})
  {
  }

  /** Any element of a set. */
  method Choose<T(==)>(s: set<T>) returns (x: T)
    requires s != {}
    ensures x in s
  {
    x :| x in s;
  }

  /** Every finite set can be listed. */
  lemma {:induction false} SomeOrder<T>(ids: set<T>) returns (order: seq<T>)
    ensures Enumerates(order, ids)
    decreases |ids|
  {
    hide Enumerates;
    if ids == {} {
      order := [];
      EnumeratesNone<T>();
    } else {
      var x :| x in ids;
      order := SomeOrder(ids - {x});
      EnumeratesNext(order, ids - {x}, x);
      assert ids - {x} + {x} == ids;
      order := order + [x];
    }
  }
}
