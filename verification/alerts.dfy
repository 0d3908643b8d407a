/** The inventory-alerts page: the `meta` field decoding, the per-tab
    counters, the tab/search filter with its newest-first order, the badge
    chosen for each alert, and the optimistic "resolve" action.

    Calendar arithmetic is not modelled: a date string is turned into a
    signed number of calendar days from today by a function parameter
    (`isoDays` for date-fns `parseISO`, `dateDays` for `new Date`), `None`
    standing for an invalid date. */
module Alerts {
  import opened Common
  import Text
  import Sorting

  /** The decoded (or raw) `meta` of an alert.
      `MetaObject.vencimiento` is `String(meta.vencimiento)` when that
      property is truthy and `None` otherwise; `stockLow` is the truthiness
      of `meta.stock_low`. A string has neither property. */
  datatype Meta =
    | MetaNull
    | MetaText(s: string)
    | MetaObject(vencimiento: Option<string>, stockLow: bool)

  /** `parseMeta`: falsy input gives `null`; a non-empty string is replaced
      by what `JSON.parse` (the parameter `parse`, `None` when it throws)
      makes of it, or kept as it is when parsing fails; an object is
      returned as it is. */
  function ParseMeta(meta: Meta, parse: string -> Option<Meta>): (r: Meta)
    ensures meta.MetaNull? || meta == MetaText("") ==> r == MetaNull
    ensures meta.MetaObject? ==> r == meta
    ensures meta.MetaText? && meta.s != "" && parse(meta.s).Some? ==> r == parse(meta.s).value
    ensures meta.MetaText? && meta.s != "" && parse(meta.s).None? ==> r == meta
  {
    match meta
    case MetaNull => MetaNull
    case MetaText(s) =>
      if s == "" then MetaNull
      else if parse(s).Some? then parse(s).value
      else meta
    case MetaObject(_, _) => meta
  }

  /** An object sent as its JSON text is read exactly as the object itself. */
  lemma TextOfObjectReadsAsObject(o: Meta, json: string, parse: string -> Option<Meta>)
    requires o.MetaObject?
    requires json != "" && parse(json) == Some(o)
    ensures ParseMeta(MetaText(json), parse) == ParseMeta(o, parse)
    ensures MetaVencimiento(ParseMeta(MetaText(json), parse)) == o.vencimiento
  {
  }

  /** `meta && meta.vencimiento`, as the string the page hands to the date
      parsers. */
  function MetaVencimiento(m: Meta): Option<string> {
    if m.MetaObject? then m.vencimiento else None
  }

  /** `meta && meta.stock_low`, taken as a truth value. */
  predicate MetaStockLow(m: Meta) {
    m.MetaObject? && m.stockLow
  }

  /** An alert as `/api/alerts` returns it. `vencimiento` is the alert's own
      date field (`None` when falsy); `createdAt` is `new Date(created_at)`
      as a timestamp. */
  datatype Alert = Alert(id: int, kind: string, message: string, meta: Meta,
                         vencimiento: Option<string>, createdAt: int)

  /** The badges of `TYPE_BADGE`. */
  datatype Badge = ExpiryBadge | ExpiredBadge | StockBadge | GeneralBadge

  function BadgeLabel(b: Badge): (shown: string)
    ensures shown != ""
  {
    match b
    case ExpiryBadge => "Vencimiento"
    case ExpiredBadge => "Vencido"
    case StockBadge => "Stock bajo"
    case GeneralBadge => "General"
  }

  /** The tabs of `FILTERS`. */
  datatype Tab = AllTab | ExpiringTab | ExpiredTab | LowStockTab

  /** The part both the counters and the badge share: a low-stock alert is
      one of type `stock` or whose meta says `stock_low`. */
  predicate LowStock(a: Alert, parse: string -> Option<Meta>) {
    a.kind == "stock" || MetaStockLow(ParseMeta(a.meta, parse))
  }

  /** The day difference the counters and the badge compute: only the meta
      date, read by `parseISO`. */
  function MetaDays(a: Alert, parse: string -> Option<Meta>, isoDays: string -> Option<int>): Option<int> {
    var v := MetaVencimiento(ParseMeta(a.meta, parse));
    if v.Some? then isoDays(v.value) else None
  }

  /** The counters shown next to each tab. */
  datatype Counts = Counts(all: nat, expiring: nat, expired: nat, lowStock: nat)

  /** One step of the `forEach` that fills the counters. */
  function Bump(c: Counts, a: Alert, parse: string -> Option<Meta>, isoDays: string -> Option<int>): Counts {
    var meta := ParseMeta(a.meta, parse);
    var c1 :=
      if a.kind == "expiry" || MetaVencimiento(meta).Some? then
        match MetaDays(a, parse, isoDays)
        case None => c
        case Some(days) =>
          if days < 0 then c.(expired := c.expired + 1)
          else if days <= 30 then c.(expiring := c.expiring + 1)
          else c
      else c;
    if LowStock(a, parse) then c1.(lowStock := c1.lowStock + 1) else c1
  }

  function Tally(alerts: seq<Alert>, parse: string -> Option<Meta>, isoDays: string -> Option<int>): Counts
    decreases |alerts|
  {
    if |alerts| == 0 then Counts(0, 0, 0, 0)
    else Bump(Tally(alerts[1..], parse, isoDays), alerts[0], parse, isoDays)
  }

  /** `counts`: `all` is the number of alerts (it is set from the length,
      not counted), and every alert adds to at most one of `expired` and
      `expiring`, so the two together never exceed it. */
  function CountsOf(alerts: seq<Alert>, parse: string -> Option<Meta>, isoDays: string -> Option<int>): (c: Counts)
    ensures c.all == |alerts|
    ensures c.expired + c.expiring <= c.all
    ensures c.lowStock <= c.all
  {
    var t := Tally(alerts, parse, isoDays);
    TallyBounds(alerts, parse, isoDays);
    t.(all := |alerts|)
  }

  lemma {:induction false} TallyBounds(alerts: seq<Alert>, parse: string -> Option<Meta>, isoDays: string -> Option<int>)
    ensures var t := Tally(alerts, parse, isoDays);
            t.all == 0 && t.expired + t.expiring <= |alerts| && t.lowStock <= |alerts|
    decreases |alerts|
  {
    if |alerts| > 0 {
      TallyBounds(alerts[1..], parse, isoDays);
    }
  }

  /** Predicates of the three counters, one alert at a time. */
  predicate CountedExpired(a: Alert, parse: string -> Option<Meta>, isoDays: string -> Option<int>) {
    var d := MetaDays(a, parse, isoDays);
    d.Some? && d.value < 0
  }

  predicate CountedExpiring(a: Alert, parse: string -> Option<Meta>, isoDays: string -> Option<int>) {
    var d := MetaDays(a, parse, isoDays);
    d.Some? && 0 <= d.value <= 30
  }

  /** The three counters' tests as values, so that lists can be filtered
      by them. */
  function ExpiredAlert(parse: string -> Option<Meta>, isoDays: string -> Option<int>): Alert -> bool {
    (a: Alert) => CountedExpired(a, parse, isoDays)
  }

  function ExpiringAlert(parse: string -> Option<Meta>, isoDays: string -> Option<int>): Alert -> bool {
    (a: Alert) => CountedExpiring(a, parse, isoDays)
  }

  function LowStockAlert(parse: string -> Option<Meta>): Alert -> bool {
    (a: Alert) => LowStock(a, parse)
  }

  /** Each counter counts exactly the alerts of its kind: `expired` those
      whose meta date is in the past, `expiring` those due within 30 days,
      `low_stock` the low-stock ones, whatever their dates. */
  lemma CountsCountAlerts(alerts: seq<Alert>, parse: string -> Option<Meta>, isoDays: string -> Option<int>)
    ensures CountsOf(alerts, parse, isoDays).expired == |Filter(ExpiredAlert(parse, isoDays), alerts)|
    ensures CountsOf(alerts, parse, isoDays).expiring == |Filter(ExpiringAlert(parse, isoDays), alerts)|
    ensures CountsOf(alerts, parse, isoDays).lowStock == |Filter(LowStockAlert(parse), alerts)|
  {
    TallyExpired(alerts, parse, isoDays);
    TallyExpiring(alerts, parse, isoDays);
    TallyLowStock(alerts, parse, isoDays);
  }

  lemma {:induction false} TallyExpired(alerts: seq<Alert>, parse: string -> Option<Meta>, isoDays: string -> Option<int>)
    ensures Tally(alerts, parse, isoDays).expired == |Filter(ExpiredAlert(parse, isoDays), alerts)|
    decreases |alerts|
  {
    if |alerts| > 0 {
      TallyExpired(alerts[1..], parse, isoDays);
    }
  }

  lemma {:induction false} TallyExpiring(alerts: seq<Alert>, parse: string -> Option<Meta>, isoDays: string -> Option<int>)
    ensures Tally(alerts, parse, isoDays).expiring == |Filter(ExpiringAlert(parse, isoDays), alerts)|
    decreases |alerts|
  {
    if |alerts| > 0 {
      TallyExpiring(alerts[1..], parse, isoDays);
    }
  }

  lemma {:induction false} TallyLowStock(alerts: seq<Alert>, parse: string -> Option<Meta>, isoDays: string -> Option<int>)
    ensures Tally(alerts, parse, isoDays).lowStock == |Filter(LowStockAlert(parse), alerts)|
    decreases |alerts|
  {
    if |alerts| > 0 {
      TallyLowStock(alerts[1..], parse, isoDays);
    }
  }

  /** The date the tab filter uses: the meta date, or else the alert's own
      `vencimiento`. */
  function FilterDate(a: Alert, parse: string -> Option<Meta>): Option<string> {
    var v := MetaVencimiento(ParseMeta(a.meta, parse));
    if v.Some? then v else a.vencimiento
  }

  /** The day difference the tab filter uses: `new Date(dStr)` when that is
      a valid date, otherwise `parseISO(String(dStr))`. */
  function FilterDays(a: Alert, parse: string -> Option<Meta>,
                      dateDays: string -> Option<int>, isoDays: string -> Option<int>): Option<int> {
    match FilterDate(a, parse)
    case None => None
    case Some(s) => if dateDays(s).Some? then dateDays(s) else isoDays(s)
  }

  /** The tab part of the `filtered` predicate. */
  predicate TabOk(tab: Tab, a: Alert, parse: string -> Option<Meta>,
                  dateDays: string -> Option<int>, isoDays: string -> Option<int>) {
    match tab
    case AllTab => true
    case ExpiringTab =>
      var d := FilterDays(a, parse, dateDays, isoDays);
      d.Some? && d.value <= 30
    case ExpiredTab =>
      var d := FilterDays(a, parse, dateDays, isoDays);
      d.Some? && d.value < 0
    case LowStockTab => LowStock(a, parse)
  }

  /** The search part: a blank query keeps everything, otherwise the
      lower-cased message must contain the trimmed, lower-cased query. */
  predicate QueryOk(q: string, a: Alert) {
    var ql := Text.Lower(Text.Trim(q));
    ql == "" || Text.Contains(Text.Lower(a.message), ql)
  }

  /** Newest first. */
  function NewestFirst(): (Alert, Alert) -> bool {
    (a: Alert, b: Alert) => a.createdAt >= b.createdAt
  }

  lemma NewestFirstIsPreorder()
    ensures Sorting.TotalPreorder(NewestFirst())
  {
  }

  datatype Env = Env(parse: string -> Option<Meta>, dateDays: string -> Option<int>, isoDays: string -> Option<int>)

  predicate Keep(q: string, tab: Tab, env: Env, a: Alert) {
    TabOk(tab, a, env.parse, env.dateDays, env.isoDays) && QueryOk(q, a)
  }

  /** The filter test as a value. */
  function Shown(q: string, tab: Tab, env: Env): Alert -> bool {
    (a: Alert) => Keep(q, tab, env, a)
  }

  /** `filtered`: the alerts passing the tab and the search, newest first. */
  function Filtered(alerts: seq<Alert>, q: string, tab: Tab, env: Env): (r: seq<Alert>)
    ensures multiset(r) <= multiset(alerts)
    ensures |r| == |Filter(Shown(q, tab, env), alerts)|
    ensures forall a :: a in r <==> a in alerts && Keep(q, tab, env, a)
    ensures Sorting.Sorted(r, NewestFirst())
  {
    var kept := Filter(Shown(q, tab, env), alerts);
    NewestFirstIsPreorder();
    var r := Sorting.InsertionSort(kept, NewestFirst());
    assert forall a :: a in r <==> a in kept by {
      forall a ensures a in r <==> a in kept {
        assert a in r <==> a in multiset(r);
        assert a in kept <==> a in multiset(kept);
      }
    }
    r
  }

  /** The "Todas" tab with a blank search shows every alert, reordered. */
  lemma AllTabShowsEverything(alerts: seq<Alert>, q: string, env: Env)
    requires Text.Lower(Text.Trim(q)) == ""
    ensures multiset(Filtered(alerts, q, AllTab, env)) == multiset(alerts)
  {
    assert forall i :: 0 <= i < |alerts| ==> Shown(q, AllTab, env)(alerts[i]);
  }

  /** Under the expiring tab every expired alert is listed as well: the
      list holds everything due within 30 days, past dates included. */
  lemma ExpiringListIncludesExpired(alerts: seq<Alert>, q: string, env: Env, a: Alert)
    requires a in Filtered(alerts, q, ExpiredTab, env)
    ensures a in Filtered(alerts, q, ExpiringTab, env)
  {
  }

  /** When every alert's date lives in its meta and both date readers agree,
      the "Vencidas" counter is the length of the list that tab shows, while
      the "Por vencer" list also carries the expired alerts, so its length
      is the sum of the two counters. */
  lemma TabListsAgainstCounters(alerts: seq<Alert>, env: Env)
    requires forall s :: env.dateDays(s) == env.isoDays(s)
    requires forall i :: 0 <= i < |alerts| ==> alerts[i].vencimiento.None?
    ensures |Filtered(alerts, "", ExpiredTab, env)| == CountsOf(alerts, env.parse, env.isoDays).expired
    ensures |Filtered(alerts, "", ExpiringTab, env)|
         == CountsOf(alerts, env.parse, env.isoDays).expired + CountsOf(alerts, env.parse, env.isoDays).expiring
  {
    CountsCountAlerts(alerts, env.parse, env.isoDays);
    TabTests(alerts, env);
    var expired, expiring := ExpiredAlert(env.parse, env.isoDays), ExpiringAlert(env.parse, env.isoDays);
    SameFilter(Shown("", ExpiredTab, env), expired, alerts);
    FilterCountSplit(expired, expiring, Shown("", ExpiringTab, env), alerts);
  }

  /** Under the stated conditions the two date tabs test, alert by alert,
      what the counters test. */
  lemma TabTests(alerts: seq<Alert>, env: Env)
    requires forall s :: env.dateDays(s) == env.isoDays(s)
    requires forall i :: 0 <= i < |alerts| ==> alerts[i].vencimiento.None?
    ensures forall i :: 0 <= i < |alerts| ==>
      Shown("", ExpiredTab, env)(alerts[i]) == ExpiredAlert(env.parse, env.isoDays)(alerts[i])
    ensures forall i :: 0 <= i < |alerts| ==>
      Shown("", ExpiringTab, env)(alerts[i])
        == (ExpiredAlert(env.parse, env.isoDays)(alerts[i]) || ExpiringAlert(env.parse, env.isoDays)(alerts[i]))
  {
    assert Text.Lower(Text.Trim("")) == "";
    forall i | 0 <= i < |alerts|
      ensures FilterDays(alerts[i], env.parse, env.dateDays, env.isoDays) == MetaDays(alerts[i], env.parse, env.isoDays)
    {
    }
  }

  /** The badge of an alert: a date in the meta (or the `expiry` type) wins
      over low stock; only otherwise does low stock give the stock badge. */
  function BadgeOf(a: Alert, parse: string -> Option<Meta>, isoDays: string -> Option<int>): (b: Badge)
    ensures b == ExpiredBadge <==> CountedExpired(a, parse, isoDays)
    ensures b == ExpiryBadge <==> CountedExpiring(a, parse, isoDays)
    ensures b == StockBadge <==>
      a.kind != "expiry" && MetaVencimiento(ParseMeta(a.meta, parse)).None? && LowStock(a, parse)
  {
    var meta := ParseMeta(a.meta, parse);
    if a.kind == "expiry" || MetaVencimiento(meta).Some? then
      match MetaDays(a, parse, isoDays)
      case None => GeneralBadge
      case Some(days) =>
        if days < 0 then ExpiredBadge
        else if days <= 30 then ExpiryBadge
        else GeneralBadge
    else if LowStock(a, parse) then StockBadge
    else GeneralBadge
  }

  /** Badges and counters agree: across a list, the number of "Vencido"
      badges is the expired counter and the number of "Vencimiento" badges
      is the expiring counter. */
  lemma BadgesMatchCounters(alerts: seq<Alert>, parse: string -> Option<Meta>, isoDays: string -> Option<int>)
    ensures |Filter(WithBadge(ExpiredBadge, parse, isoDays), alerts)| == CountsOf(alerts, parse, isoDays).expired
    ensures |Filter(WithBadge(ExpiryBadge, parse, isoDays), alerts)| == CountsOf(alerts, parse, isoDays).expiring
  {
    CountsCountAlerts(alerts, parse, isoDays);
    SameFilter(WithBadge(ExpiredBadge, parse, isoDays), ExpiredAlert(parse, isoDays), alerts);
    SameFilter(WithBadge(ExpiryBadge, parse, isoDays), ExpiringAlert(parse, isoDays), alerts);
  }

  function WithBadge(b: Badge, parse: string -> Option<Meta>, isoDays: string -> Option<int>): Alert -> bool {
    (a: Alert) => BadgeOf(a, parse, isoDays) == b
  }

  /** The outcome of `handleResolve`: the list shown afterwards and whether
      the resolve request went out. */
  datatype Resolve = Resolve(alerts: seq<Alert>, requested: bool)

  /** The list shown between the click and the response. */
  function Optimistic(alerts: seq<Alert>, id: int): (r: seq<Alert>)
    ensures SubseqOf(r, alerts)
    ensures forall a :: multiset(r)[a] == if a.id != id then multiset(alerts)[a] else 0
    ensures forall a :: a in r <==> a in alerts && a.id != id
  {
    Filter((a: Alert) => a.id != id, alerts)
  }

  /** `handleResolve`: nothing without confirmation; otherwise the alerts
      with that id are removed and stay removed when the request succeeds,
      while a failed request puts back exactly the list from before. */
  function HandleResolve(alerts: seq<Alert>, id: int, confirmed: bool, ok: bool): (r: Resolve)
    ensures r.requested <==> confirmed
    ensures !confirmed || !ok ==> r.alerts == alerts
    ensures confirmed && ok ==> r.alerts == Optimistic(alerts, id)
  {
    if !confirmed then Resolve(alerts, false)
    else if ok then Resolve(Optimistic(alerts, id), true)
    else Resolve(alerts, true)
  }

  /** Resolving twice is resolving once, and resolving an id nobody carries
      changes nothing. */
  lemma ResolveIdempotent(alerts: seq<Alert>, id: int)
    ensures var once := HandleResolve(alerts, id, true, true).alerts;
            HandleResolve(once, id, true, true).alerts == once
    ensures (forall i :: 0 <= i < |alerts| ==> alerts[i].id != id) ==>
            HandleResolve(alerts, id, true, true).alerts == alerts
  {
    var once := Optimistic(alerts, id);
    assert forall i :: 0 <= i < |once| ==> once[i].id != id;
  }
}
