/** The reference records the simulator computes over: the numeric fields of
    the country table, the refinery fleet, the integration milestones and the
    integration investment amounts. The computations take these as
    parameters; the shipped tables below are the values the application
    passes them. */
module ReferenceData {

  /** A country's refining sector and carbon-pricing regime. A 2024 price of
      zero means the country has no mandatory price (voluntary only). */
  datatype Country = Country(
    name: string,
    capacityKbpd: real,     // thousand barrels per day
    govtOwnership: real,    // fraction of capacity in state hands
    carbonPrice2024: real,  // $/tCO2
    carbonPrice2030: real,  // $/tCO2
    etsLaunchYear: int,
    coveragePct: real)      // percent of sector emissions covered

  datatype Refinery = Refinery(
    country: string,
    name: string,
    capacityKbpd: real,
    ageYears: int,
    complexity: string)

  datatype Milestone = Milestone(
    phase: string,
    year: int,
    milestone: string,
    status: string,
    quarter: string)

  const ShippedCountries: seq<Country> := [
    Country("Singapore", 1512.0, 0.13, 59.0, 75.0, 2019, 80.0),
    Country("Thailand", 1240.0, 0.36, 35.0, 50.0, 2025, 60.0),
    Country("Indonesia", 1050.0, 1.00, 25.0, 35.0, 2023, 50.0),
    Country("Malaysia", 612.0, 0.80, 0.0, 15.0, 2030, 30.0),
    Country("Vietnam", 346.0, 0.71, 20.0, 40.0, 2028, 45.0)
  ]

  const ShippedRefineries: seq<Refinery> := [
    Refinery("Singapore", "ExxonMobil Jurong", 592.0, 55, "High"),
    Refinery("Singapore", "Shell Pulau Bukom", 500.0, 62, "High"),
    Refinery("Singapore", "SRC Jurong Island", 420.0, 18, "High"),
    Refinery("Thailand", "Thai Oil Sriracha", 275.0, 58, "High"),
    Refinery("Thailand", "IRPC Rayong", 215.0, 42, "Medium"),
    Refinery("Thailand", "Star Petroleum Map Ta Phut", 165.0, 28, "High"),
    Refinery("Thailand", "ESSO Sriracha", 174.0, 55, "Medium"),
    Refinery("Thailand", "Bangchak Bangkok", 120.0, 40, "Medium"),
    Refinery("Thailand", "PTT GC Rayong", 291.0, 12, "High"),
    Refinery("Indonesia", "Pertamina Cilacap", 348.0, 48, "High"),
    Refinery("Indonesia", "Pertamina Balikpapan", 260.0, 102, "Medium"),
    Refinery("Indonesia", "Pertamina Dumai", 170.0, 52, "Medium"),
    Refinery("Indonesia", "Pertamina Balongan", 125.0, 30, "High"),
    Refinery("Indonesia", "Pertamina Plaju", 118.0, 89, "Low"),
    Refinery("Indonesia", "Pertamina Kasim", 10.0, 25, "Low"),
    Refinery("Indonesia", "Trans Pacific Tuban", 100.0, 18, "Medium"),
    Refinery("Indonesia", "Pertamina Sungai Pakning", 50.0, 55, "Low"),
    Refinery("Malaysia", "Petronas RAPID Pengerang", 300.0, 5, "High"),
    Refinery("Malaysia", "Petronas Melaka I", 100.0, 30, "Medium"),
    Refinery("Malaysia", "Petronas Melaka II", 100.0, 25, "Medium"),
    Refinery("Malaysia", "Petronas Kertih", 47.0, 40, "Low"),
    Refinery("Malaysia", "Hengyuan Port Dickson", 156.0, 60, "Medium"),
    Refinery("Vietnam", "Nghi Son", 200.0, 6, "High"),
    Refinery("Vietnam", "Dung Quat", 130.0, 15, "Medium"),
    Refinery("Vietnam", "Long Son (planned)", 200.0, 0, "High")
  ]

  const ShippedMilestones: seq<Milestone> := [
    Milestone("Phase 1", 2025, "ASEAN Carbon Coordination Body Launch", "Pending", "Q2"),
    Milestone("Phase 1", 2025, "Malaysia Policy Decision Deadline", "Critical", "Q3"),
    Milestone("Phase 1", 2027, "MRV Standards Harmonization Complete", "Pending", "Q4"),
    Milestone("Phase 1", 2028, "Singapore-Thailand Bilateral Linkage", "Pending", "Q1"),
    Milestone("Phase 2", 2030, "All Countries Mandatory Pricing", "Pending", "Q1"),
    Milestone("Phase 2", 2030, "Informal $20/t Price Floor", "Pending", "Q2"),
    Milestone("Phase 2", 2032, "Indonesia Joins Linkage", "Pending", "Q1"),
    Milestone("Phase 2", 2032, "Malaysia Integration (if committed)", "Conditional", "Q3"),
    Milestone("Phase 2", 2035, "$40/t Price Floor Binding", "Pending", "Q1"),
    Milestone("Phase 3", 2035, "Vietnam Tier 1 Graduation", "Pending", "Q2"),
    Milestone("Phase 3", 2040, "Price Spread Narrows to 1.5×", "Pending", "Q1"),
    Milestone("Phase 3", 2045, "Single ASEAN Carbon Market ($70-95/t)", "Pending", "Q1")
  ]

  /** The `amount_m` column of the investment requirements ($M). */
  const ShippedInvestmentAmounts: seq<int> := [85, 45, 35, 40, 24]
}

/** How a 2024 price of zero (no mandatory program) is replaced where a
    computation needs a price: each call site names its own floor. */
module PriceDefaults {

  /** Default base price of the liability calculator. */
  const CalculatorFloorPrice: real := 25.0
  /** Price assumed for unpriced countries in the regional comparison and in
      the growth trajectory. */
  const ComparisonFloorPrice: real := 15.0

  /** The country's own price when it is positive, otherwise the floor. */
  function PriceOrFloor(price: real, floor: real): (r: real)
    requires floor > 0.0
    ensures r > 0.0
    ensures price > 0.0 ==> r == price
    ensures price <= 0.0 ==> r == floor
  {
    if price > 0.0 then price else floor
  }
}
