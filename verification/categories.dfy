/**
 * The blog's category table (identical in server.js and add-categories.js)
 * and the title-to-category table the backfill script uses.
 */
module Categories {

  /** Category key -> display name. The descriptions and icons are presentation only. */
  const CategoryNames: map<string, string> := map[
    "maintenance-care" := "Maintenance & Care",
    "troubleshooting-repair" := "Troubleshooting & Repair",
    "safety-electrical" := "Safety & Electrical",
    "seasonal-moving" := "Seasonal & Moving",
    "professional-services" := "Professional Services"
  ]

  /** The category given to an uncategorised post whose title has no entry below. */
  const DefaultCategory: string := "maintenance-care"

  /** `categoryMappings`: post title -> category key. */
  const TitleMappings: map<string, string> := map[
    "5 Signs Your Hot Tub Needs Professional Repair" := "troubleshooting-repair",
    "Winter Hot Tub Maintenance: Essential Tips for Cold Weather" := "seasonal-moving",
    "Hot Tub Water Chemistry Made Simple: A Beginner's Guide" := "maintenance-care",
    "How Often Should You Change Your Hot Tub Water?" := "maintenance-care",
    "Hot Tub Filter Maintenance: Clean Filters = Clean Water" := "maintenance-care",
    "Why Is My Hot Tub Not Heating? Troubleshooting Guide" := "troubleshooting-repair",
    "Hot Tub Cover Care: Extend Life and Save Energy" := "maintenance-care",
    "Understanding Hot Tub Jets: Types, Function, and Maintenance" := "maintenance-care",
    "Hot Tub Electrical Safety: What Every Owner Should Know" := "safety-electrical",
    "Hot Tub Pump Problems: Diagnosis and Solutions" := "troubleshooting-repair",
    "Preparing Your Hot Tub for a Move: Professional Transport Guide" := "seasonal-moving",
    "When to Call a Professional: Hot Tub Repair vs. DIY" := "professional-services"
  ]

  /** Every mapped category, and the default, is a defined category. */
  lemma MappedCategoriesAreDefined()
    ensures forall title | title in TitleMappings :: TitleMappings[title] in CategoryNames
    ensures DefaultCategory in CategoryNames
  {
  }
}
