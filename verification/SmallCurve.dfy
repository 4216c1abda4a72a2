/** The integers modulo 5, over themselves: an instance of every law assumed of curves, with
    four participants, and the smallest signing session that goes wrong. */
module SmallCurve {
  import opened Algebra
  import opened Bytes
  import opened Polynomial
  import opened Lagrange
  import opened Threshold
  import opened Dkg
  import opened Frost
  import opened Options

  datatype Z5 = Zero | One | Two | Three | Four

  function Next(a: Z5): Z5 {
    match a case Zero => One case One => Two case Two => Three case Three => Four case Four => Zero
  }

  function Of(n: nat): Z5 { if n == 0 then Zero else Next(Of(n - 1)) }

  function Add(a: Z5, b: Z5): Z5 {
    match a
    case Zero => b
    case One => Next(b)
    case Two => Next(Next(b))
    case Three => Next(Next(Next(b)))
    case Four => Next(Next(Next(Next(b))))
  }

  function Neg(a: Z5): Z5 {
    match a case Zero => Zero case One => Four case Two => Three case Three => Two case Four => One
  }

  function Mul(a: Z5, b: Z5): Z5 {
    match a
    case Zero => Zero
    case One => b
    case Two => Add(b, b)
    case Three => Neg(Add(b, b))
    case Four => Neg(b)
  }

  function Inverse(a: Z5): Z5 { match a case Two => Three case Three => Two case _ => a }

  function Integers(): Field<Z5> { Field(Zero, One, Add, Mul, Neg, Inverse) }

  function TheCurve(): Curve<Z5, Z5> { Curve(Integers(), Scalars(Integers()), One, (i: nat) => Of(i)) }

  lemma {:induction false} Units(a: Z5)
    ensures Add(a, Zero) == a && Add(a, Neg(a)) == Zero && Mul(a, One) == a
    ensures a != Zero ==> Mul(a, Inverse(a)) == One
  {
    match a { case Zero => case One => case Two => case Three => case Four => }
  }

  lemma {:induction false} Commutes(a: Z5, b: Z5)
    ensures Add(a, b) == Add(b, a) && Mul(a, b) == Mul(b, a)
  {
    match a { case Zero => case One => case Two => case Three => case Four => }
    match b { case Zero => case One => case Two => case Three => case Four => }
  }

  /** Five steps lead back, and a sum takes the steps of either side. */
  lemma {:induction false} Steps(a: Z5, b: Z5)
    ensures Next(Next(Next(Next(Next(a))))) == a
    ensures Add(Next(a), b) == Next(Add(a, b)) && Neg(Next(a)) == Add(Four, Neg(a))
  {
    match a { case Zero => case One => case Two => case Three => case Four => }
    match b { case Zero => case One => case Two => case Three => case Four => }
  }

  lemma {:induction false} AddAssociates(a: Z5, b: Z5, c: Z5)
    ensures Add(Add(a, b), c) == Add(a, Add(b, c))
  {
    Steps(b, c);
    Steps(Next(b), c);
    Steps(Next(Next(b)), c);
    Steps(Next(Next(Next(b))), c);
    match a { case Zero => case One => case Two => case Three => case Four => }
  }

  lemma {:induction false} NegAdds(a: Z5, b: Z5)
    ensures Neg(Add(a, b)) == Add(Neg(a), Neg(b)) && Neg(Neg(a)) == a
    ensures Mul(Neg(a), b) == Neg(Mul(a, b)) && Mul(Add(a, a), b) == Add(Mul(a, b), Mul(a, b))
  {
    match a { case Zero => case One => case Two => case Three => case Four => }
    match b { case Zero => case One => case Two => case Three => case Four => }
  }

  lemma {:induction false} MulAssociates(a: Z5, b: Z5, c: Z5)
    ensures Mul(Mul(a, b), c) == Mul(a, Mul(b, c))
  {
    NegAdds(b, c);
    NegAdds(Add(b, b), c);
    match a { case Zero => case One => case Two => case Three => case Four => }
  }

  /** One more of the first factor is one more of the second. */
  lemma {:induction false} MulStep(a: Z5, b: Z5)
    ensures Mul(Next(a), b) == Add(b, Mul(a, b))
  {
    match a { case Zero => case One => case Two => case Three => case Four => }
    match b { case Zero => case One => case Two => case Three => case Four => }
  }

  lemma {:induction false} FourTimes(b: Z5, x: Z5)
    ensures Add(b, Add(b, x)) == Add(Mul(Two, b), x) && Add(b, Add(b, Add(b, x))) == Add(Mul(Three, b), x)
    ensures Add(b, Add(b, Add(b, Add(b, x)))) == Add(Mul(Four, b), x)
  {
    match b { case Zero => case One => case Two => case Three => case Four => }
    match x { case Zero => case One => case Two => case Three => case Four => }
  }

  lemma {:induction false} Distributes(a: Z5, b: Z5, c: Z5)
    ensures Mul(Add(a, b), c) == Add(Mul(a, c), Mul(b, c))
  {
    MulStep(b, c);
    MulStep(Next(b), c);
    MulStep(Next(Next(b)), c);
    MulStep(Next(Next(Next(b))), c);
    FourTimes(c, Mul(b, c));
    match a { case Zero => case One => case Two => case Three => case Four => }
  }

  lemma {:induction false} IntegersAreField()
    ensures IsField(Integers())
  {
    var f := Integers();
    forall a: Z5 {:trigger Use1(a)} | Use1(a)
      ensures && f.add(a, f.zero) == a && f.add(a, f.neg(a)) == f.zero
              && f.mul(a, f.one) == a && (a != f.zero ==> f.mul(a, f.inverse(a)) == f.one)
    {
      Units(a);
    }
    forall a: Z5, b: Z5 {:trigger Use2(a, b)} | Use2(a, b)
      ensures f.add(a, b) == f.add(b, a) && f.mul(a, b) == f.mul(b, a)
    {
      Commutes(a, b);
    }
    forall a: Z5, b: Z5, c: Z5 {:trigger Use3(a, b, c)} | Use3(a, b, c)
      ensures && f.add(f.add(a, b), c) == f.add(a, f.add(b, c)) && f.mul(f.mul(a, b), c) == f.mul(a, f.mul(b, c))
              && f.mul(f.add(a, b), c) == f.add(f.mul(a, c), f.mul(b, c))
    {
      AddAssociates(a, b, c);
      MulAssociates(a, b, c);
      Distributes(a, b, c);
    }
  }

  /** What is assumed of curves can be met, with four participants. */
  lemma {:induction false} CurveExists()
    ensures IsCurve(TheCurve(), 4)
  {
    IntegersAreField();
    ScalarsAreGroup(Integers());
    forall a: Z5 ensures Mul(One, a) == a {
      Commutes(One, a);
      Units(a);
    }
  }

  lemma {:induction false} ProductOfOne(a: Z5)
    ensures Product(TheCurve().f, [a]) == a
  {
    assert Product(TheCurve().f, [a][1..]) == One;
    Units(a);
  }

  /** Threshold one, two committed participants, constant hashes. */
  function TheSession(): Session<Z5, Z5> {
    Session(TheCurve(),
            Hashes((id: nat, key: Z5, msg: seq<byte>, l: Package<Z5>) => Zero, (r: Z5, key: Z5, msg: seq<byte>) => One),
            [], [One], [(1, NonceCommitment(Three, Zero)), (2, NonceCommitment(Zero, Zero))], None)
  }

  lemma {:induction false} Keys(x: Z5)
    ensures Eval(TheCurve().g, [One], x) == One
    ensures EffectiveKey(TheSession()) == One && Challenge(TheSession()) == One
  {
    assert Eval(TheCurve().g, [One][1..], x) == Zero;
    assert Eval(TheCurve().g, [One][1..], Zero) == Zero;
  }

  lemma {:induction false} Coefficients()
    ensures Coefficient(TheCurve(), [1, 2], 1) == Some(Two) && Coefficient(TheCurve(), [1, 2], 2) == Some(Four)
  {
    var c := TheCurve();
    assert Others([2], 1) == [2] && Others([2], 2) == [];
    assert [1, 2][1..] == [2];
    assert Others([1, 2], 1) == [2] && Others([1, 2], 2) == [1];
    assert Nodes(c, [2]) == [Two] && Nodes(c, [1]) == [One];
    assert Flipped(c.f, One, [Two]) == [One] && Flipped(c.f, Two, [One]) == [Four];
    ProductOfOne(One);
    ProductOfOne(Two);
    ProductOfOne(Four);
  }

  lemma {:induction false} PointsOfBoth()
    ensures SharePoint(TheSession(), 1) == Zero && SharePoint(TheSession(), 2) == Four
  {
    var s := TheSession();
    Coefficients();
    Keys(One);
    Keys(Two);
    assert Ids(s.commitments) == [1, 2];
    assert Lookup(s.commitments, 1) == Some(NonceCommitment(Three, Zero));
    assert Lookup(s.commitments[1..], 2) == Some(NonceCommitment(Zero, Zero));
    assert KeyWeight(s, 1) == Two && KeyWeight(s, 2) == Four;
  }

  lemma {:induction false} OnlyFirst()
    ensures Missing([1, 2], [1]) == [2]
  {
    assert [1, 2][1..] == [2];
    assert Missing([2][1..], [1]) == [];
    assert Missing([2], [1]) == [2];
  }

  lemma {:induction false} SessionOpen()
    ensures Ids(TheSession().commitments) == [1, 2]
    ensures EffectiveKey(TheSession()) == One && !Refused(TheCurve(), TheSession().commitments, One)
  {
    Keys(Zero);
  }

  lemma {:induction false} Passing<A(!new), S(!new)>(s: Session<A, S>, id: nat, v: S, key: A, lambda: S)
    requires id in Ids(s.commitments) && EffectiveKey(s) == key != s.c.g.zero && !Refused(s.c, s.commitments, key)
    requires Coefficient(s.c, Ids(s.commitments), id) == Some(lambda)
    requires SharePoint(s, id) == s.c.g.mul(s.c.base, v)
    ensures SharePasses(s, PriShare(id, v))
  {
  }

  lemma {:induction false} FirstPasses()
    ensures SharePasses(TheSession(), PriShare(1, Zero))
  {
    SessionOpen();
    Coefficients();
    assert SharePoint(TheSession(), 1) == Zero by { PointsOfBoth(); }
    Passing(TheSession(), 1, Zero, One, Two);
  }

  lemma {:induction false} OneShareIsEnough()
    ensures Recoverable(TheSession(), [PriShare(1, Zero)], 2)
  {
    var s, shares := TheSession(), [PriShare(1, Zero)];
    CurveExists();
    FirstPasses();
    assert Ids(s.commitments) == [1, 2] && ShareIds(shares) == [1];
  }

  lemma {:induction false} SecondPoint()
    ensures SumPoints(TheCurve().g, Mapped(PointOf(TheSession()), [2])) == Four
  {
    PointsOfBoth();
    assert Mapped(PointOf(TheSession()), [2]) == [Four];
    assert SumPoints(TheCurve().g, [Four][1..]) == Zero;
  }

  /** A passing share of one of two committed participants reaches the threshold and is
      recovered into a signature that does not verify. */
  lemma {:induction false} PartialFails()
    ensures Recoverable(TheSession(), [PriShare(1, Zero)], 2)
    ensures !Verifies(TheCurve(), TheSession().h, EffectiveKey(TheSession()), [],
                      RecoveredSignature(TheSession(), [PriShare(1, Zero)]))
  {
    var s, shares := TheSession(), [PriShare(1, Zero)];
    OneShareIsEnough();
    VerifiesIff(s, shares, 2);
    assert Ids(s.commitments) == [1, 2] && ShareIds(shares) == [1];
    OnlyFirst();
    SecondPoint();
  }
}
