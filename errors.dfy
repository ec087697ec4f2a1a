/**
 * A record's error collection (ActiveModel `errors`): messages keyed by
 * attribute, each attribute holding its messages in the order they were added.
 */
module Errors {

  /** One message added against one attribute. */
  datatype Error<A> = Error(attribute: A, message: string)

  /** `errors[a]`: the messages on `a`, empty when there are none. */
  function Messages<A(==, !new)>(m: map<A, seq<string>>, a: A): seq<string> {
    if a in m then m[a] else []
  }

  /** Every key of the collection holds at least one message. */
  predicate NoEmptyEntries<A(==, !new)>(m: map<A, seq<string>>) {
    forall a :: a in m ==> m[a] != []
  }

  /** `errors.add(a, message)`: appends to the messages on `a`, touches no other attribute. */
  function Add<A(==, !new)>(m: map<A, seq<string>>, a: A, message: string): (m': map<A, seq<string>>)
    ensures Messages(m', a) == Messages(m, a) + [message]
    ensures forall b :: b != a ==> Messages(m', b) == Messages(m, b)
    ensures m'.Keys == m.Keys + {a}
    ensures NoEmptyEntries(m) ==> NoEmptyEntries(m')
  {
    m[a := Messages(m, a) + [message]]
  }

  /** The collection after adding `es` one by one, first to last. */
  function AddAll<A(==, !new)>(m: map<A, seq<string>>, es: seq<Error<A>>): (m': map<A, seq<string>>)
    ensures m.Keys <= m'.Keys
    ensures forall k :: 0 <= k < |es| ==> es[k].attribute in m'
    decreases |es|
  {
    if es == [] then m
    else
      var n := |es| - 1;
      var last := es[n];
      assert forall k :: 0 <= k < n ==> es[..n][k] == es[k];
      Add(AddAll(m, es[..n]), last.attribute, last.message)
  }

  /** The messages in `es` that are about `a`, in order. */
  function MessagesOn<A(==, !new)>(es: seq<Error<A>>, a: A): seq<string> {
    if es == [] then []
    else (if es[0].attribute == a then [es[0].message] else []) + MessagesOn(es[1..], a)
  }

  /** A single error contributes its message to its own attribute only. */
  lemma MessagesOnSingle<A(!new)>(e: Error<A>, a: A)
    ensures MessagesOn([e], a) == if e.attribute == a then [e.message] else []
  {
    assert [e][1..] == [];
  }

  /** A batch of at most one error contributes at most that error's message. */
  lemma MessagesOnAtMostOne<A(!new)>(es: seq<Error<A>>, e: Error<A>, a: A)
    requires es == [] || es == [e]
    ensures MessagesOn(es, a) == if es != [] && e.attribute == a then [e.message] else []
  {
    if es != [] {
      MessagesOnSingle(e, a);
    }
  }

  lemma {:induction false} MessagesOnAppend<A(!new)>(es: seq<Error<A>>, fs: seq<Error<A>>, a: A)
    ensures MessagesOn(es + fs, a) == MessagesOn(es, a) + MessagesOn(fs, a)
  {
    if es == [] {
      assert es + fs == fs;
    } else {
      assert (es + fs)[0] == es[0];
      assert (es + fs)[1..] == es[1..] + fs;
      MessagesOnAppend(es[1..], fs, a);
    }
  }

  /** Adding in two batches is adding the concatenation. */
  lemma {:induction false} AddAllAppend<A(!new)>(m: map<A, seq<string>>, es: seq<Error<A>>, fs: seq<Error<A>>)
    ensures AddAll(m, es + fs) == AddAll(AddAll(m, es), fs)
    decreases |fs|
  {
    if fs == [] {
      assert es + fs == es;
    } else {
      var n := |fs| - 1;
      assert (es + fs)[..|es + fs| - 1] == es + fs[..n];
      assert (es + fs)[|es + fs| - 1] == fs[n];
      AddAllAppend(m, es, fs[..n]);
    }
  }

  /** After adding `es`, each attribute holds its old messages followed by the
      messages of `es` about it, in order. */
  lemma {:induction false} MessagesOfAddAll<A(!new)>(m: map<A, seq<string>>, es: seq<Error<A>>, a: A)
    ensures Messages(AddAll(m, es), a) == Messages(m, a) + MessagesOn(es, a)
    decreases |es|
  {
    if es == [] {
    } else {
      var n := |es| - 1;
      assert es == es[..n] + [es[n]];
      MessagesOfAddAll(m, es[..n], a);
      MessagesOnAppend(es[..n], [es[n]], a);
      assert MessagesOn([es[n]], a) == if es[n].attribute == a then [es[n].message] else [];
    }
  }

  /** Adding keeps every key non-empty. */
  lemma {:induction false} AddAllNoEmptyEntries<A(!new)>(m: map<A, seq<string>>, es: seq<Error<A>>)
    requires NoEmptyEntries(m)
    ensures NoEmptyEntries(AddAll(m, es))
    decreases |es|
  {
    if es != [] {
      AddAllNoEmptyEntries(m, es[..|es| - 1]);
    }
  }

  /** `errors.empty?` after adding `es` to nothing holds exactly when `es` is empty. */
  lemma {:induction false} AddAllEmpty<A(!new)>(es: seq<Error<A>>)
    ensures AddAll(map[], es) == map[] <==> es == []
  {
    if es != [] {
      var last := es[|es| - 1];
      assert last.attribute in AddAll(map[], es);
    }
  }
}
