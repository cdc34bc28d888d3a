/**
 * The lead record of the `submissions` table as the admin dashboard holds it
 * in memory.
 */
module Leads {
  import opened Sequences

  /** The table's primary key. */
  type Id = int

  /**
   * One contact-form submission. `submittedAt` stands for the
   * `submitted_at` timestamp, abstracted to the instant it denotes.
   */
  datatype Submission = Submission(
    id: Id,
    name: string,
    email: string,
    service: string,
    message: string,
    status: string,
    submittedAt: int)

  /** `subs.map(sub => sub.id)`. */
  function Ids(subs: seq<Submission>): (r: seq<Id>)
    ensures |r| == |subs|
    ensures forall i :: 0 <= i < |subs| ==> r[i] == subs[i].id
  {
    seq(|subs|, i requires 0 <= i < |subs| => subs[i].id)
  }

  /** Two records agree on everything except possibly their status. */
  predicate SameExceptStatus(a: Submission, b: Submission)
  {
    a.(status := b.status) == b
  }

  /** No two records share an id, as the table's primary key guarantees. */
  predicate UniqueIds(subs: seq<Submission>)
  {
    NoDuplicates(Ids(subs))
  }

  /**
   * Taking records from a list with unique ids, each at most as often as it
   * occurs there, gives a list with unique ids.
   */
  lemma UniqueIdsOfSubMultiset(s: seq<Submission>, t: seq<Submission>)
    requires UniqueIds(s)
    requires forall x :: multiset(t)[x] <= multiset(s)[x]
    ensures UniqueIds(t)
  {
    forall i, j | 0 <= i < j < |t|
      ensures t[i].id != t[j].id
    {
      if t[i].id == t[j].id {
        assert t[i] in multiset(t) && t[j] in multiset(t);
        assert t[i] in s && t[j] in s;
        var a :| 0 <= a < |s| && s[a] == t[i];
        var b :| 0 <= b < |s| && s[b] == t[j];
        assert Ids(s)[a] == Ids(s)[b];
        assert a == b;
        assert multiset(t)[t[i]] >= 2 by {
          assert t == t[..i] + [t[i]] + t[i + 1..j] + [t[j]] + t[j + 1..];
        }
        assert NoDuplicates(s) by {
          assert forall p, q :: 0 <= p < q < |s| ==> Ids(s)[p] != Ids(s)[q];
        }
        CountAtMostOne(s, t[i]);
      }
    }
  }
}
