TestResult.DisplayName,TestResult.Outcome,TestResult.Duration,TestResult.ResourceCount,RandomSeed
ActivityCard.UnitOnlyLabels (correctness),Failed,00:00:00.7398596,2036907,6
ActivityCard.ActivityIcon (well-formedness),Passed,00:00:00.2946097,76488,6
ActivityCard.ActivityColor (well-formedness),Passed,00:00:00.2945511,75281,6
ActivityCard.ReadOnlyLabels (correctness),Passed,00:00:00.2280583,280923,6
ActivityCard.ReadHoursThenMinutes (correctness),Passed,00:00:00.1303121,112491,6
ActivityCard.FormatDurationRoundTrip (correctness),Passed,00:00:00.0937855,94916,6
ActivityCard.ReadHoursMinutesLabel (correctness),Passed,00:00:00.0931984,91753,6
ActivityCard.HoursMinutesLabelIs (correctness),Passed,00:00:00.0807217,114772,6
ActivityCard.ReadDuration (well-formedness),Passed,00:00:00.0759770,33030,6
ActivityCard.MinutesOnlyLabel (correctness),Passed,00:00:00.0754224,66617,6
ActivityCard.LabelOfHoursMinutes (correctness),Passed,00:00:00.0704903,73527,6
ActivityCard.FormatDuration (well-formedness),Passed,00:00:00.0601245,37316,6
ActivityCard.ReadAfterNumber (correctness),Passed,00:00:00.0570797,47338,6
ActivityCard.ReadMinutesOf (correctness),Passed,00:00:00.0533250,43102,6
ActivityCard.HoursMinutesLabelIs (well-formedness),Passed,00:00:00.0532137,33949,6
ActivityCard.ReadUnit (well-formedness),Passed,00:00:00.0500729,30953,6
ActivityCard.ReadAfterNumber (well-formedness),Passed,00:00:00.0434645,33648,6
ActivityCard.ReadMinutes (well-formedness),Passed,00:00:00.0404388,28576,6
ActivityCard.MinutesLabelIs (correctness),Passed,00:00:00.0351450,25787,6
ActivityCard.HoursAndMinutes (well-formedness),Passed,00:00:00.0294157,4597,6
ActivityCard.HoursAndMinutes (correctness),Passed,00:00:00.0264134,13685,6
