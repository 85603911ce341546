/** The CMS collection records the pages read (src/entities/index.ts).

    Every optional field of the schema is an `Option`; numbers are `int`;
    dates are an abstract `int` timestamp (milliseconds since the epoch), and
    `None` stands for a missing or empty value. Only the fields that the modelled
    logic reads affect any result; the others are carried so that the records
    keep their identity through sorting and slicing. */
module Entities {
  import opened Wrappers

  type Timestamp = int

  /** Collection `brandpillars`. */
  datatype BrandPillar = BrandPillar(
    id: string,
    createdDate: Option<Timestamp>,
    updatedDate: Option<Timestamp>,
    pillarName: Option<string>,
    pillarIcon: Option<string>,
    shortDescription: Option<string>,
    displayOrder: Option<int>,
    callToActionText: Option<string>,
    callToActionUrl: Option<string>)

  /** Collection `customertestimonials`. */
  datatype CustomerTestimonial = CustomerTestimonial(
    id: string,
    createdDate: Option<Timestamp>,
    updatedDate: Option<Timestamp>,
    customerName: Option<string>,
    customerTitle: Option<string>,
    quote: Option<string>,
    customerImage: Option<string>,
    videoUrl: Option<string>)

  /** Collection `eveningritualsteps`. */
  datatype EveningRitualStep = EveningRitualStep(
    id: string,
    createdDate: Option<Timestamp>,
    updatedDate: Option<Timestamp>,
    stepNumber: Option<int>,
    stepTitle: Option<string>,
    stepDescription: Option<string>,
    illustration: Option<string>,
    ritualTip: Option<string>)

  /** Collection `ingredients`. */
  datatype Ingredient = Ingredient(
    id: string,
    createdDate: Option<Timestamp>,
    updatedDate: Option<Timestamp>,
    ingredientName: Option<string>,
    macroImage: Option<string>,
    botanicalName: Option<string>,
    origin: Option<string>,
    description: Option<string>)

  /** Collection `journalarticles`. */
  datatype JournalArticle = JournalArticle(
    id: string,
    createdDate: Option<Timestamp>,
    updatedDate: Option<Timestamp>,
    title: Option<string>,
    content: Option<string>,
    featureImage: Option<string>,
    author: Option<string>,
    publishDate: Option<Timestamp>,
    excerpt: Option<string>,
    readTime: Option<int>)

  /** Collection `ritualteablends`. */
  datatype RitualTeaBlend = RitualTeaBlend(
    id: string,
    createdDate: Option<Timestamp>,
    updatedDate: Option<Timestamp>,
    blendName: Option<string>,
    price: Option<int>,
    keyBenefits: Option<string>,
    ingredients: Option<string>,
    description: Option<string>,
    ritualInstructions: Option<string>,
    sourcingStory: Option<string>,
    mainImage: Option<string>,
    healingUSP: Option<string>,
    productSKU: Option<string>)

  /** Collection `sustainabilityoriginpoints`. */
  datatype SustainabilityOriginPoint = SustainabilityOriginPoint(
    id: string,
    createdDate: Option<Timestamp>,
    updatedDate: Option<Timestamp>,
    point1Title: Option<string>,
    point1Image: Option<string>,
    point1Description: Option<string>,
    point2Title: Option<string>,
    point2Image: Option<string>,
    point2Description: Option<string>,
    point3Title: Option<string>,
    point3Image: Option<string>,
    point3Description: Option<string>)

  /** Collection `wellnessbenefits`. */
  datatype WellnessBenefit = WellnessBenefit(
    id: string,
    createdDate: Option<Timestamp>,
    updatedDate: Option<Timestamp>,
    benefitTitle: Option<string>,
    benefitDescription: Option<string>,
    benefitImage: Option<string>,
    displayOrder: Option<int>,
    isActive: Option<bool>)
}
