/** The market agent at the root of the repository (`agents.py`). Its
    `get_new_offer` is the same random walk as the Monte Carlo experiment's;
    its `get_random_offer` tells sellers apart by the first whitespace
    separated word of the agent id instead of by class. */
module AgentIds {
  import opened Outcomes
  import opened Lattice
  import opened MarketAgent

  /** Python's `str.isspace` on one character: the characters `str.split()`
      with no argument splits on. */
  predicate IsSpace(ch: char)
  {
    var n := ch as int;
    || (9 <= n <= 13) || (28 <= n <= 32) || n == 0x85 || n == 0xA0
    || n == 0x1680 || (0x2000 <= n <= 0x200A) || n == 0x2028 || n == 0x2029
    || n == 0x202F || n == 0x205F || n == 0x3000
  }

  predicate AllSpace(s: string)
  {
    forall i :: 0 <= i < |s| ==> IsSpace(s[i])
  }

  predicate NoSpace(s: string)
  {
    forall i :: 0 <= i < |s| ==> !IsSpace(s[i])
  }

  /** The number of leading whitespace characters of `s`. */
  function LeadingSpaces(s: string): (n: nat)
    ensures n <= |s|
    ensures AllSpace(s[..n])
    ensures n < |s| ==> !IsSpace(s[n])
  {
    if |s| == 0 || !IsSpace(s[0]) then 0
    else
      var n := 1 + LeadingSpaces(s[1..]);
      assert forall i :: 1 <= i < n ==> s[..n][i] == s[1..][..n - 1][i - 1];
      n
  }

  /** The length of the longest prefix of `s` without whitespace. */
  function WordLength(s: string): (n: nat)
    ensures n <= |s|
    ensures NoSpace(s[..n])
    ensures n < |s| ==> IsSpace(s[n])
  {
    if |s| == 0 || IsSpace(s[0]) then 0
    else
      var n := 1 + WordLength(s[1..]);
      assert forall i :: 1 <= i < n ==> s[..n][i] == s[1..][..n - 1][i - 1];
      n
  }

  /** `s.split()[0]`: the first maximal run of non-whitespace characters, or
      `None` where Python raises `IndexError` because `s` is empty or all
      whitespace. */
  function FirstWord(s: string): (r: Option<string>)
    ensures r.None? <==> AllSpace(s)
    ensures r.Some? ==>
              exists i :: 0 <= i && i + |r.value| <= |s|
                && AllSpace(s[..i]) && s[i..i + |r.value|] == r.value
                && (i + |r.value| == |s| || IsSpace(s[i + |r.value|]))
    ensures r.Some? ==> |r.value| > 0 && NoSpace(r.value)
  {
    var i := LeadingSpaces(s);
    if i == |s| then
      assert s[..i] == s;
      None
    else
      var t := s[i..];
      var n := WordLength(t);
      assert t[..n] == s[i..i + n];
      assert n < |t| ==> t[n] == s[i + n];
      Some(t[..n])
  }

  /** The ids the training script builds: "Seller " or "Buyer " followed by
      a name. Their first word is the role whatever the name is. */
  lemma FirstWordOfRoleId(role: string, name: string)
    requires |role| > 0 && NoSpace(role)
    ensures FirstWord(role + " " + name) == Some(role)
  {
    var s := role + " " + name;
    assert s[..|role|] == role;
    assert s[|role|] == ' ';
    var i := LeadingSpaces(s);
    assert i == 0;
    assert s[0..] == s;
    var n := WordLength(s);
  }

  /** The draw `get_random_offer` makes for this id, where it makes one: a
      bucket in 2..10 for an id whose first word is "Seller", in 0..10
      otherwise. */
  predicate RandomDrawFor(id: string, k: int)
  {
    match FirstWord(id)
    case None => true
    case Some(w) => DrawIn(k, if w == "Seller" then 2 else 0, 10)
  }

  /** `get_random_offer` of `agents.py`: a lattice price from [20, 100] for an
      id whose first word is "Seller" and from [0, 100] otherwise; the last
      offer plays no part. An empty or all-whitespace id is an error. */
  function RandomOfferById(id: string, last: int, k: int): (r: Result<int>)
    requires RandomDrawFor(id, k)
    ensures r.Err? <==> AllSpace(id)
    ensures r.Err? ==> r.fault == EmptySplit
    ensures r.Ok? ==> OnLattice(r.value) && r.value <= 100
    ensures r.Ok? && FirstWord(id) == Some("Seller") ==> 20 <= r.value
    ensures r.Ok? ==> 0 <= r.value
  {
    match FirstWord(id)
    case None => Err(EmptySplit)
    case Some(w) => Ok(BucketPrice(k))
  }

  /** The last offer plays no part in `get_random_offer` of `agents.py`
      either: the same id and draw give the same result, offer or error,
      whatever the last offer was. */
  lemma RandomOfferByIdIgnoresLast(id: string, last1: int, last2: int, k: int)
    requires RandomDrawFor(id, k)
    ensures RandomOfferById(id, last1, k) == RandomOfferById(id, last2, k)
  {
  }

  /** The role read from the id and the class of the Monte Carlo experiment
      give the same offer for the agents the training script builds: for
      every seller draw in 2..10 and every buyer draw in 0..10. */
  lemma RandomOfferByIdMatchesClass(name: string, last: int, k: int)
    requires DrawIn(k, 0, 10)
    ensures DrawIn(k, 2, 10) ==> RandomDrawFor("Seller " + name, k)
    ensures DrawIn(k, 2, 10) ==>
              RandomOfferById("Seller " + name, last, k) == Ok(RandomOffer(NewAgent("Seller " + name, SellerAgent, 0), last, k))
    ensures RandomDrawFor("Buyer " + name, k)
    ensures RandomOfferById("Buyer " + name, last, k) == Ok(RandomOffer(NewAgent("Buyer " + name, BuyerAgent, 0), last, k))
  {
    FirstWordOfRoleId("Seller", name);
    FirstWordOfRoleId("Buyer", name);
  }

  /** `get_new_offer` of `agents.py` has the same branches and draw as the
      Monte Carlo experiment's: on the buyer branch (last offer at or below
      the reservation price) it stays in [last // 10 * 10, res // 10 * 10],
      on the seller branch in [res // 10 * 10, last // 10 * 10]. */
  lemma NewOfferBranches(last: int, reservation: int, k: int)
    requires NewOfferDraw(last, reservation, k) && last != reservation
    ensures var r := NewOffer(last, reservation, k);
            && OnLattice(r)
            && (last <= reservation ==>
                  BucketPrice(Bucket(last)) <= r <= BucketPrice(Bucket(reservation)) && r <= reservation)
            && (last > reservation ==>
                  BucketPrice(Bucket(reservation)) <= r <= BucketPrice(Bucket(last)) && r <= last)
  {
    BucketGalois(reservation, k);
    BucketGalois(last, k);
  }
}
