/** What a name means after symbol resolution: the strong definition if there is one, else the first
    weak one; and exactly which undefined references are let through. */
module LinkResolution {
  import opened Words
  import opened Symbols
  import opened AssemblySpec
  import opened LinkSpec

  /** A definition that takes part in resolution. */
  datatype Offer = Offer(name: string, address: u64, binding: SymbolBinding)

  function OfferOf(bases: seq<u64>, placements: seq<Placement>, symbol: Symbol): seq<Offer>
    requires |bases| == 4
  {
    if !symbol.defined || symbol.binding.Local? then []
    else
      var address := AddressOf(bases, placements, symbol);
      if address.Err? then [] else [Offer(symbol.name, address.value, symbol.binding)]
  }

  /** The definitions of the first n symbols of an object, in order. */
  function Offers(bases: seq<u64>, placements: seq<Placement>, symbols: seq<Symbol>, n: nat): seq<Offer>
    requires |bases| == 4 && n <= |symbols|
  {
    if n == 0 then [] else Offers(bases, placements, symbols, n - 1) + OfferOf(bases, placements, symbols[n - 1])
  }

  /** Those of the first n objects. */
  function AllOffers(bases: seq<u64>, placements: seq<seq<Placement>>, objects: seq<ObjectFile>, n: nat): seq<Offer>
    requires |bases| == 4 && n <= |objects| == |placements|
  {
    if n == 0 then []
    else AllOffers(bases, placements, objects, n - 1) + Offers(bases, placements[n - 1], objects[n - 1].symbols, |objects[n - 1].symbols|)
  }

  function Settle(offers: seq<Offer>): Result<Definitions, LinkError> {
    if offers == [] then Ok(map[])
    else
      var before, x := Settle(offers[..|offers| - 1]), offers[|offers| - 1];
      if before.Err? then before else DefineSymbol(before.value, Symbol(x.name, x.binding, 0, 0, true), x.address)
  }

  ghost predicate Offered(offers: seq<Offer>, name: string) {
    exists i :: 0 <= i < |offers| && offers[i].name == name
  }

  /** Two strong definitions of one name. */
  ghost predicate TwoStrong(offers: seq<Offer>) {
    exists i, j :: 0 <= i < j < |offers| && offers[i].name == offers[j].name && offers[i].binding.Global? && offers[j].binding.Global?
  }

  /** Offer i decides its name: it is strong, or the first of a name without a strong definition. */
  ghost predicate Decides(offers: seq<Offer>, i: nat) {
    && i < |offers|
    && (offers[i].binding.Global?
        || (forall j :: 0 <= j < |offers| && offers[j].name == offers[i].name ==> !offers[j].binding.Global? && i <= j))
  }

  ghost predicate DecidedBy(offers: seq<Offer>, name: string, d: Definition) {
    exists i :: 0 <= i < |offers| && offers[i].name == name && Decides(offers, i) && d == Definition(offers[i].address, offers[i].binding)
  }

  /** Strong beats weak, the first weak definition stands if there is no strong one, and two strong ones
      are an error, whatever the order of the objects. */
  lemma {:induction false} SettleMeans(offers: seq<Offer>)
    requires forall i :: 0 <= i < |offers| ==> offers[i].binding.Global? || offers[i].binding.Weak?
    ensures Settle(offers).Ok? <==> !TwoStrong(offers)
    ensures Settle(offers).Ok? ==> forall name :: name in Settle(offers).value <==> Offered(offers, name)
    ensures Settle(offers).Ok? ==> forall name :: name in Settle(offers).value ==> DecidedBy(offers, name, Settle(offers).value[name])
  {
    if offers != [] {
      var n := |offers| - 1;
      var init, x := offers[..n], offers[n];
      SettleMeans(init);
      if TwoStrong(init) {
        var i, j :| 0 <= i < j < n && init[i].name == init[j].name && init[i].binding.Global? && init[j].binding.Global?;
        assert offers[i].name == offers[j].name && offers[i].binding.Global? && offers[j].binding.Global?;
      } else {
        SettleStep(offers);
      }
    }
  }

  lemma SettleStep(offers: seq<Offer>)
    requires offers != [] && forall i :: 0 <= i < |offers| ==> offers[i].binding.Global? || offers[i].binding.Weak?
    requires var init := offers[..|offers| - 1];
      && !TwoStrong(init) && Settle(init).Ok? && (forall name :: name in Settle(init).value <==> Offered(init, name))
      && forall name :: name in Settle(init).value ==> DecidedBy(init, name, Settle(init).value[name])
    ensures Settle(offers).Ok? <==> !TwoStrong(offers)
    ensures Settle(offers).Ok? ==> forall name :: name in Settle(offers).value <==> Offered(offers, name)
    ensures Settle(offers).Ok? ==> forall name :: name in Settle(offers).value ==> DecidedBy(offers, name, Settle(offers).value[name])
  {
    hide TwoStrong, Offered, DecidedBy, Settle;
    var n := |offers| - 1;
    var init, x, defs := offers[..n], offers[n], Settle(offers[..n]).value;
    StrongTwice(offers, defs);
    OneSettled(offers);
    if Settle(offers).Ok? {
      var after := Settle(offers).value;
      forall name
        ensures name in after <==> Offered(offers, name)
        ensures name in after ==> DecidedBy(offers, name, after[name])
      {
        OfferedMore(offers, name);
        if name in after {
          DecidedMore(offers, name, defs, after);
        }
      }
    }
  }

  lemma OneSettled(offers: seq<Offer>)
    requires offers != [] && Settle(offers[..|offers| - 1]).Ok?
    ensures var x := offers[|offers| - 1];
      Settle(offers) == DefineSymbol(Settle(offers[..|offers| - 1]).value, Symbol(x.name, x.binding, 0, 0, true), x.address)
  {
  }

  lemma OfferedMore(offers: seq<Offer>, name: string)
    requires offers != []
    ensures Offered(offers, name) <==> Offered(offers[..|offers| - 1], name) || offers[|offers| - 1].name == name
  {
    var init := offers[..|offers| - 1];
    if Offered(init, name) {
      var i :| 0 <= i < |init| && init[i].name == name;
      assert offers[i].name == name;
    }
    if Offered(offers, name) && offers[|offers| - 1].name != name {
      var i :| 0 <= i < |offers| && offers[i].name == name;
      assert init[i].name == name;
    }
  }

  ghost predicate StronglyOffered(offers: seq<Offer>, name: string) {
    exists i :: 0 <= i < |offers| && offers[i].name == name && offers[i].binding.Global?
  }

  lemma TwoStrongStep(offers: seq<Offer>)
    requires offers != [] && !TwoStrong(offers[..|offers| - 1])
    ensures var x := offers[|offers| - 1];
      TwoStrong(offers) <==> x.binding.Global? && StronglyOffered(offers[..|offers| - 1], x.name)
  {
    var n := |offers| - 1;
    var init, x := offers[..n], offers[n];
    assert forall k :: 0 <= k < n ==> init[k] == offers[k];
    if x.binding.Global? && StronglyOffered(init, x.name) {
      var i :| 0 <= i < |init| && init[i].name == x.name && init[i].binding.Global?;
      assert offers[i] == init[i];
    }
  }

  lemma StrongDefinition(offers: seq<Offer>, name: string, d: Definition)
    requires DecidedBy(offers, name, d)
    ensures StronglyOffered(offers, name) <==> d.binding.Global?
  {
  }

  /** The last offer clashes exactly when the name already has a strong definition and it is strong. */
  lemma StrongTwice(offers: seq<Offer>, defs: Definitions)
    requires offers != [] && !TwoStrong(offers[..|offers| - 1])
    requires var init := offers[..|offers| - 1];
      (forall name :: name in defs <==> Offered(init, name)) && forall name :: name in defs ==> DecidedBy(init, name, defs[name])
    ensures var x := offers[|offers| - 1];
      TwoStrong(offers) <==> x.binding.Global? && x.name in defs && defs[x.name].binding.Global?
  {
    hide TwoStrong, DecidedBy;
    var init, x := offers[..|offers| - 1], offers[|offers| - 1];
    TwoStrongStep(offers);
    if x.name in defs {
      StrongDefinition(init, x.name, defs[x.name]);
    } else {
      assert !Offered(init, x.name);
    }
  }

  lemma DecidedMore(offers: seq<Offer>, name: string, defs: Definitions, after: Definitions)
    requires offers != [] && !TwoStrong(offers)
    requires forall i :: 0 <= i < |offers| ==> offers[i].binding.Global? || offers[i].binding.Weak?
    requires var init := offers[..|offers| - 1];
      (forall other :: other in defs <==> Offered(init, other)) && forall other :: other in defs ==> DecidedBy(init, other, defs[other])
    requires var x := offers[|offers| - 1]; DefineSymbol(defs, Symbol(x.name, x.binding, 0, 0, true), x.address) == Ok(after)
    requires name in after
    ensures DecidedBy(offers, name, after[name])
  {
    var n := |offers| - 1;
    var init, x := offers[..n], offers[n];
    if name in defs {
      assert DecidedBy(init, name, defs[name]);
      var i :| 0 <= i < |init| && init[i].name == name && Decides(init, i) && defs[name] == Definition(init[i].address, init[i].binding);
      assert offers[i] == init[i];
      if name == x.name && x.binding.Global? {
        assert Decides(offers, n);
      } else {
        forall j | 0 <= j < |offers| && offers[j].name == offers[i].name && !offers[i].binding.Global?
          ensures !offers[j].binding.Global? && i <= j
        {
          if j < n {
            assert init[j] == offers[j];
          }
        }
        assert Decides(offers, i);
      }
    } else {
      assert name == x.name && !Offered(init, name);
      assert forall j :: 0 <= j < n ==> offers[j] == init[j] && offers[j].name != name;
      assert Decides(offers, n);
    }
  }

  // ----- the linker's own loops -----

  lemma SettleSnoc(offers: seq<Offer>, x: Offer)
    requires Settle(offers).Ok?
    ensures Settle(offers + [x]) == DefineSymbol(Settle(offers).value, Symbol(x.name, x.binding, 0, 0, true), x.address)
  {
    assert (offers + [x])[..|offers|] == offers;
  }

  lemma NextOffer(bases: seq<u64>, placements: seq<Placement>, defs: Definitions, symbol: Symbol)
    requires |bases| == 4 && DefineNext(bases, placements, defs, symbol).Ok?
    ensures |OfferOf(bases, placements, symbol)| <= 1
    ensures OfferOf(bases, placements, symbol) == [] ==> DefineNext(bases, placements, defs, symbol) == Ok(defs)
    ensures OfferOf(bases, placements, symbol) != [] ==>
      var x := OfferOf(bases, placements, symbol)[0];
      DefineNext(bases, placements, defs, symbol) == DefineSymbol(defs, Symbol(x.name, x.binding, 0, 0, true), x.address)
  {
    hide AddressOf;
  }

  lemma {:induction false} DefinesSettle(
    bases: seq<u64>, placements: seq<Placement>, defs: Definitions, symbols: seq<Symbol>, n: nat, offers: seq<Offer>)
    requires |bases| == 4 && n <= |symbols| && DefineAll(bases, placements, defs, symbols, n).Ok?
    requires Settle(offers) == Ok(defs)
    ensures Settle(offers + Offers(bases, placements, symbols, n)) == DefineAll(bases, placements, defs, symbols, n)
  {
    hide Settle, OfferOf, DefineNext, DefineSymbol;
    var more := Offers(bases, placements, symbols, n);
    if n == 0 {
      assert offers + more == offers;
    } else {
      DefinesSettle(bases, placements, defs, symbols, n - 1, offers);
      var before := Offers(bases, placements, symbols, n - 1);
      var last := OfferOf(bases, placements, symbols[n - 1]);
      NextOffer(bases, placements, DefineAll(bases, placements, defs, symbols, n - 1).value, symbols[n - 1]);
      if last == [] {
        assert offers + more == offers + before;
      } else {
        assert offers + more == offers + before + [last[0]];
        SettleSnoc(offers + before, last[0]);
      }
    }
  }

  /** The definitions of a link are what its offers settle to. */
  lemma {:induction false} LinkSettles(bases: seq<u64>, placements: seq<seq<Placement>>, objects: seq<ObjectFile>, n: nat)
    requires |bases| == 4 && n <= |objects| == |placements| && DefineObjects(bases, placements, objects, n).Ok?
    ensures Settle(AllOffers(bases, placements, objects, n)) == DefineObjects(bases, placements, objects, n)
  {
    hide DefineAll, Offers;
    if n > 0 {
      LinkSettles(bases, placements, objects, n - 1);
      DefinesSettle(bases, placements[n - 1], DefineObjects(bases, placements, objects, n - 1).value,
                    objects[n - 1].symbols, |objects[n - 1].symbols|, AllOffers(bases, placements, objects, n - 1));
    }
  }

  // ----- references -----

  /** An undefined reference that nothing lets through: neither defined anywhere nor weak, and no weak
      reference to the same name comes before it. */
  ghost predicate Dangling(defs: Definitions, symbols: seq<Symbol>, k: nat) {
    && k < |symbols| && !symbols[k].defined && !symbols[k].binding.Weak?
    && symbols[k].name !in defs && !WeaklyNamed(symbols, k, symbols[k].name)
  }

  /** An undefined weak reference to the name is among the first n symbols. */
  ghost predicate WeaklyNamed(symbols: seq<Symbol>, n: nat, name: string) {
    exists j :: 0 <= j < n && j < |symbols| && !symbols[j].defined && symbols[j].binding.Weak? && symbols[j].name == name
  }

  /** Exactly when the check of references succeeds. An undefined weak reference counts as a definition
      for everything checked after it, so the verdict depends on the order of the objects. */
  lemma {:induction false} ChecksIff(defs: Definitions, symbols: seq<Symbol>, n: nat)
    requires n <= |symbols|
    ensures CheckReferences(defs, symbols, n).Ok? <==> forall k :: 0 <= k < n ==> !Dangling(defs, symbols, k)
    ensures CheckReferences(defs, symbols, n).Ok? ==> forall name :: name in CheckReferences(defs, symbols, n).value <==>
      name in defs || WeaklyNamed(symbols, n, name)
  {
    if n > 0 {
      hide WeaklyNamed;
      ChecksIff(defs, symbols, n - 1);
      var before := CheckReferences(defs, symbols, n - 1);
      forall name
        ensures WeaklyNamed(symbols, n, name) <==>
          WeaklyNamed(symbols, n - 1, name) || (!symbols[n - 1].defined && symbols[n - 1].binding.Weak? && symbols[n - 1].name == name)
      {
        OneMoreWeak(symbols, n - 1, name);
      }
      if before.Ok? {
        assert CheckReference(before.value, symbols[n - 1]).Err? <==> Dangling(defs, symbols, n - 1);
      }
    }
  }

  lemma OneMoreWeak(symbols: seq<Symbol>, n: nat, name: string)
    requires n < |symbols|
    ensures WeaklyNamed(symbols, n + 1, name) <==>
      WeaklyNamed(symbols, n, name) || (!symbols[n].defined && symbols[n].binding.Weak? && symbols[n].name == name)
  {
  }
}
